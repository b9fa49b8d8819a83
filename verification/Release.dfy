/** Release manifests: their shape, the bytes their signature covers, and verification. Base64 and
  Ed25519 are parameters. */
module Release {
  import opened Bytes
  import Version

  datatype Manifest = Manifest(version: Str, digest: Str, signature: Str)

  datatype VerifyError = BadManifest | NoKey | BadSignature

  /** `decode` is base64 decoding; `verifies(key, message, signature)` is Ed25519. */
  datatype Crypto = Crypto(decode: Str -> Option<Str>, verifies: (Str, Str, Str) -> bool)

  const NEWLINE: Byte := 10
  const HEX_DIGITS: nat := 64
  const SIGNATURE_SIZE: nat := 64
  const KEY_SIZE: nat := 32

  function SigningContext(): Str {
    Ascii("sensorhub-firmware-release/v1")
  }

  function DigestPrefix(): Str {
    Ascii("sha256:")
  }

  /** The digits 0 to 9 and the letters a to f. */
  predicate IsLowerHexDigit(b: Byte) {
    48 <= b <= 57 || 97 <= b <= 102
  }

  predicate IsLowerHex(s: Str) {
    forall i :: 0 <= i < |s| ==> IsLowerHexDigit(s[i])
  }

  method CheckLowerHex(s: Str) returns (ok: bool)
    ensures ok == IsLowerHex(s)
  {
    for i := 0 to |s|
      invariant IsLowerHex(s[..i])
    {
      if !IsLowerHexDigit(s[i]) {
        return false;
      }
      assert s[..i + 1] == s[..i] + [s[i]];
    }
    assert s[..|s|] == s;
    return true;
  }

  predicate IsDigest(d: Str) {
    var n := |DigestPrefix()|;
    HasPrefix(d, DigestPrefix()) && |d[n..]| == HEX_DIGITS && IsLowerHex(d[n..])
  }

  /** `Validate` finds no fault. */
  predicate WellFormed(crypto: Crypto, m: Manifest) {
    && Version.Parse(m.version).Some?
    && IsDigest(m.digest)
    && crypto.decode(m.signature).Some?
    && |crypto.decode(m.signature).value| == SIGNATURE_SIZE
  }

  function SignedBytes(m: Manifest): Str {
    SigningContext() + [NEWLINE] + m.version + [NEWLINE] + m.digest + [NEWLINE]
  }

  function Verify(crypto: Crypto, key: Str, m: Manifest): Result<(), VerifyError> {
    if !WellFormed(crypto, m) then Err(BadManifest)
    else if |key| != KEY_SIZE then Err(NoKey)
    else if !crypto.verifies(key, SignedBytes(m), crypto.decode(m.signature).value) then Err(BadSignature)
    else Ok(())
  }

  /** Exactly what verification accepts, in the bytes that were signed, and how it tells its faults apart. */
  lemma VerifyExactly(crypto: Crypto, key: Str, m: Manifest)
    ensures var verified := Verify(crypto, key, m);
            var sig := crypto.decode(m.signature);
            var signed := Ascii("sensorhub-firmware-release/v1") + [10] + m.version + [10] + m.digest + [10];
            var wellFormed := Version.Parse(m.version).Some? && IsDigest(m.digest) && sig.Some? && |sig.value| == 64;
            && (verified == Ok(()) <==> wellFormed && |key| == 32 && crypto.verifies(key, signed, sig.value))
            && (verified == Err(BadSignature) <==>
                  wellFormed && |key| == 32 && !crypto.verifies(key, signed, sig.value))
            && (verified == Err(NoKey) <==> wellFormed && |key| != 32)
            && (verified == Err(BadManifest) <==> !wellFormed)
  {
  }

  /** A digest is `sha256:` and 64 of the characters 0123456789abcdef. */
  lemma DigestExactly(d: Str)
    ensures IsDigest(d) <==>
            |d| == 71 && d[..7] == Ascii("sha256:") && forall i :: 7 <= i < 71 ==> d[i] in Ascii("0123456789abcdef")
  {
    var hex := Ascii("0123456789abcdef");
    assert forall b: Byte :: b in hex <==> IsLowerHexDigit(b) by {
      HexDigits();
    }
    if IsDigest(d) {
      assert forall i :: 7 <= i < 71 ==> d[i] == d[7..][i - 7];
    }
  }

  lemma HexDigits()
    ensures forall b: Byte :: b in Ascii("0123456789abcdef") <==> IsLowerHexDigit(b)
  {
    var hex := Ascii("0123456789abcdef");
    assert hex == [48, 49, 50, 51, 52, 53, 54, 55, 56, 57, 97, 98, 99, 100, 101, 102];
  }

  /** An accepted version never contains the byte that separates the signed fields. */
  lemma VersionHasNoNewline(v: Str)
    requires Version.Parse(v).Some?
    ensures NEWLINE !in v
  {
    if NEWLINE in v {
      Version.ParseAlphabet(v, NEWLINE);
    }
  }

  lemma FirstSeparator(a: Str, x: Str, b: Str, y: Str)
    requires NEWLINE !in a && NEWLINE !in b
    requires a + [NEWLINE] + x == b + [NEWLINE] + y
    ensures a == b && x == y
  {
    var s, t := a + [NEWLINE] + x, b + [NEWLINE] + y;
    assert s[|a|] == NEWLINE && t[|b|] == NEWLINE;
    if |a| < |b| {
      assert false;
    }
    if |b| < |a| {
      assert false;
    }
    assert s[..|a|] == a && t[..|a|] == b;
    assert s[|a| + 1..] == x && t[|a| + 1..] == y;
  }

  lemma BySeparator(a: Str, d: Str, b: Str, e: Str)
    requires Version.Parse(a).Some? && Version.Parse(b).Some?
    requires a + [NEWLINE] + (d + [NEWLINE]) == b + [NEWLINE] + (e + [NEWLINE])
    ensures a == b && d == e
  {
    VersionHasNoNewline(a);
    VersionHasNoNewline(b);
    FirstSeparator(a, d + [NEWLINE], b, e + [NEWLINE]);
    assert (d + [NEWLINE])[..|d|] == d && (e + [NEWLINE])[..|e|] == e;
  }

  lemma ByLength(a: Str, d: Str, b: Str, e: Str)
    requires |d| == |e|
    requires a + [NEWLINE] + (d + [NEWLINE]) == b + [NEWLINE] + (e + [NEWLINE])
    ensures a == b && d == e
  {
    var s, t := a + [NEWLINE] + (d + [NEWLINE]), b + [NEWLINE] + (e + [NEWLINE]);
    assert |s| == |t| && |a| == |b|;
    assert s[..|a|] == a && t[..|b|] == b;
    assert s[|a| + 1..|s| - 1] == d && t[|b| + 1..|t| - 1] == e;
  }

  /** What the signed bytes hold after the context line. */
  function Fields(m: Manifest): Str {
    m.version + [NEWLINE] + (m.digest + [NEWLINE])
  }

  lemma SameFields(m: Manifest, n: Manifest)
    ensures SignedBytes(m) == SignedBytes(n) <==> Fields(m) == Fields(n)
  {
    var c := SigningContext() + [NEWLINE];
    SplitContext(m);
    SplitContext(n);
    assert (c + Fields(m))[|c|..] == Fields(m) && (c + Fields(n))[|c|..] == Fields(n);
  }

  lemma SplitContext(m: Manifest)
    ensures SignedBytes(m) == SigningContext() + [NEWLINE] + Fields(m)
  {
  }

  /** Either check alone, of both versions or of both digests, makes the signed bytes determine the
    version and the digest, so a signature for one release is never one for another: a version holds no
    separator, and a digest has a fixed length. */
  lemma SignedBytesInjective(m: Manifest, n: Manifest)
    requires (Version.Parse(m.version).Some? && Version.Parse(n.version).Some?)
             || (IsDigest(m.digest) && IsDigest(n.digest))
    ensures SignedBytes(m) == SignedBytes(n) <==> m.version == n.version && m.digest == n.digest
  {
    SameFields(m, n);
    if Fields(m) == Fields(n) {
      if IsDigest(m.digest) && IsDigest(n.digest) {
        ByLength(m.version, m.digest, n.version, n.digest);
      } else {
        BySeparator(m.version, m.digest, n.version, n.digest);
      }
    }
  }

  lemma DigestHasNoNewline(d: Str)
    requires IsDigest(d)
    ensures NEWLINE !in d
  {
    var n := |DigestPrefix()|;
    forall i | 0 <= i < |d|
      ensures d[i] != NEWLINE
    {
      if n <= i {
        assert d[i] == d[n..][i - n];
      } else {
        assert d[i] == DigestPrefix()[i];
      }
    }
  }

  /** With neither check two different releases can share their signed bytes: where the separators fall
    is then open. One of the two versions and one of the two digests is such as `Validate` refuses. */
  lemma UncheckedFieldsCollide(a: Str, b: Str, c: Str, signature: Str)
    ensures var m := Manifest(a + [NEWLINE] + b, c, signature);
            var n := Manifest(a, b + [NEWLINE] + c, signature);
            && SignedBytes(m) == SignedBytes(n) && m != n
            && Version.Parse(m.version) == None && !IsDigest(n.digest)
  {
    var m := Manifest(a + [NEWLINE] + b, c, signature);
    var n := Manifest(a, b + [NEWLINE] + c, signature);
    assert SignedBytes(m) == SignedBytes(n);
    assert m.version[|a|] == NEWLINE && n.digest[|b|] == NEWLINE && |m.version| != |n.version|;
    if Version.Parse(m.version).Some? {
      VersionHasNoNewline(m.version);
    }
    if IsDigest(n.digest) {
      DigestHasNoNewline(n.digest);
    }
  }
}
