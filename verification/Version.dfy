/** Release versions: strictly dotted decimals and their order. */
module Version {
  import opened Bytes

  const DOT: Byte := 46
  const PLUS: Byte := 43
  const MINUS: Byte := 45
  const ZERO: Byte := 48
  const MAX_PARTS: nat := 4
  const MAX_DIGITS: nat := 6
  const COMPONENT_LIMIT: nat := 1_000_000
  const RANK_LIMIT: nat := 1_000_000_000_000_000_000_000_000

  predicate IsDigit(b: Byte) {
    ZERO <= b <= 57
  }

  predicate AllDigits(s: Str) {
    forall i :: 0 <= i < |s| ==> IsDigit(s[i])
  }

  /** `strings.Split(s, ".")`. */
  function Split(s: Str): (parts: seq<Str>)
    ensures 1 <= |parts|
  {
    if s == [] then [[]]
    else
      var rest := Split(s[1..]);
      if s[0] == DOT then [[]] + rest else [[s[0]] + rest[0]] + rest[1..]
  }

  function Join(parts: seq<Str>): Str
    requires 1 <= |parts|
  {
    if |parts| == 1 then parts[0] else parts[0] + [DOT] + Join(parts[1..])
  }

  /** The number a string of digits denotes. */
  function Value(digits: Str): nat
    requires AllDigits(digits)
  {
    if digits == [] then 0 else Value(digits[..|digits| - 1]) * 10 + (digits[|digits| - 1] - ZERO)
  }

  predicate Signed(s: Str) {
    s != [] && (s[0] == PLUS || s[0] == MINUS)
  }

  function Unsigned(s: Str): Str {
    if Signed(s) then s[1..] else s
  }

  /** `strconv.Atoi` on strings too short to overflow: an optional sign, then digits. */
  function Atoi(s: Str): Option<int> {
    var digits := Unsigned(s);
    if digits == [] || !AllDigits(digits) then None
    else Some(if s[0] == MINUS then -(Value(digits) as int) else Value(digits) as int)
  }

  function Component(p: Str): Option<nat> {
    if p == [] || MAX_DIGITS < |p| || (1 < |p| && p[0] == ZERO) then None
    else if Atoi(p) == None || Atoi(p).value < 0 then None
    else Some(Atoi(p).value)
  }

  function Components(parts: seq<Str>): Option<seq<nat>> {
    if parts == [] then Some([])
    else
      var init, last := Components(parts[..|parts| - 1]), Component(parts[|parts| - 1]);
      if init == None || last == None then None else Some(init.value + [last.value])
  }

  /** The components of a version, or none if it is not one. */
  function Parse(v: Str): Option<seq<nat>> {
    if v == [] || MAX_PARTS < |Split(v)| then None else Components(Split(v))
  }

  // ----- Splitting and joining -----

  lemma {:induction false} JoinSplit(s: Str)
    ensures Join(Split(s)) == s
    ensures forall p :: p in Split(s) ==> DOT !in p
  {
    if s != [] {
      JoinSplit(s[1..]);
      var rest := Split(s[1..]);
      var parts := Split(s);
      assert s == [s[0]] + s[1..];
      if s[0] == DOT {
        assert parts[1..] == rest;
      } else {
        assert parts[0] == [s[0]] + rest[0] && parts[1..] == rest[1..];
        assert rest[0] in rest;
        if 1 < |rest| {
          assert Join(parts) == [s[0]] + (rest[0] + [DOT] + Join(rest[1..]));
        }
      }
    }
  }

  lemma {:induction false} SplitPlain(p: Str)
    requires 46 !in p
    ensures Split(p) == [p]
  {
    if p != [] {
      SplitPlain(p[1..]);
      assert p == [p[0]] + p[1..];
    }
  }

  lemma {:induction false} SplitFirst(p: Str, s: Str)
    requires 46 !in p
    ensures Split(p + [46] + s) == [p] + Split(s)
  {
    var t := p + [DOT] + s;
    if p == [] {
      assert t[1..] == s;
    } else {
      assert t[0] == p[0] && t[1..] == p[1..] + [DOT] + s;
      SplitFirst(p[1..], s);
      assert [p[0]] + p[1..] == p;
    }
  }

  lemma {:induction false} SplitJoin(parts: seq<Str>)
    requires 1 <= |parts| && forall p :: p in parts ==> DOT !in p
    ensures Split(Join(parts)) == parts
  {
    assert parts[0] in parts;
    if |parts| == 1 {
      SplitPlain(parts[0]);
    } else {
      SplitJoin(parts[1..]);
      SplitFirst(parts[0], Join(parts[1..]));
    }
  }

  // ----- Printing and reading numbers -----

  /** Canonical decimal. */
  function Print(n: nat): (s: Str)
    ensures s != []
  {
    if n < 10 then [ZERO + n] else Print(n / 10) + [ZERO + n % 10]
  }

  function Power10(k: nat): (r: nat)
    ensures 1 <= r
  {
    if k == 0 then 1 else 10 * Power10(k - 1)
  }

  lemma {:induction false} ValuePrint(n: nat)
    ensures AllDigits(Print(n)) && Value(Print(n)) == n
    ensures |Print(n)| == 1 || Print(n)[0] != ZERO
  {
    var s := Print(n);
    if 10 <= n {
      ValuePrint(n / 10);
      assert s[..|s| - 1] == Print(n / 10);
    } else {
      assert s[..0] == [];
    }
  }

  lemma {:induction false} PrintLength(n: nat, k: nat)
    requires 1 <= k
    ensures |Print(n)| <= k <==> n < Power10(k)
  {
    assert Power10(0) == 1 && Power10(k) == 10 * Power10(k - 1);
    if 10 <= n && 1 < k {
      PrintLength(n / 10, k - 1);
    }
  }

  lemma {:induction false} PrintValue(s: Str)
    requires s != [] && AllDigits(s) && (|s| == 1 || s[0] != ZERO)
    ensures Print(Value(s)) == s
  {
    var init := s[..|s| - 1];
    assert s == init + [s[|s| - 1]];
    if |s| == 1 {
      assert Value(init) == 0;
    } else {
      PrintValue(init);
      assert Print(0)[0] == ZERO && init[0] == s[0];
      assert Value(init) != 0;
    }
  }

  /** Digits as they are written: the last one counts ones, those before it tens. */
  lemma DigitsExactly(s: Str, d: Byte, n: nat)
    requires 48 <= d <= 57
    ensures AllDigits(s) <==> forall b :: b in s ==> 48 <= b <= 57
    ensures AllDigits(s) ==> AllDigits(s + [d]) && Value(s + [d]) == 10 * Value(s) + (d - 48)
    ensures Print(n) == if n < 10 then [48 + n] else Print(n / 10) + [48 + n % 10]
    ensures Value([]) == 0
  {
    assert (s + [d])[..|s|] == s;
    if forall b :: b in s ==> 48 <= b <= 57 {
      assert forall i :: 0 <= i < |s| ==> s[i] in s;
    }
  }

  lemma SixDigits()
    ensures Power10(MAX_DIGITS) == COMPONENT_LIMIT
  {
    assert Power10(0) == 1 && Power10(1) == 10 && Power10(2) == 100 && Power10(3) == 1000;
    assert Power10(4) == 10000 && Power10(5) == 100000;
  }

  lemma {:induction false} ValueBound(s: Str)
    requires AllDigits(s)
    ensures Value(s) < Power10(|s|)
  {
    if s != [] {
      ValueBound(s[..|s| - 1]);
    }
  }

  lemma {:induction false} PowerGrows(i: nat, j: nat)
    requires i <= j
    ensures 1 <= Power10(i) <= Power10(j)
  {
    if i < j {
      PowerGrows(i, j - 1);
    } else if 0 < i {
      PowerGrows(i - 1, j - 1);
    }
  }

  /** A component lies below 10^6, is spelled with digits and at most a leading sign, and is spelled
    canonically exactly when it carries no sign. */
  lemma ComponentRange(p: Str)
    requires Component(p).Some?
    ensures Component(p).value < COMPONENT_LIMIT
    ensures p == Print(Component(p).value) <==> !Signed(p)
    ensures forall i :: 0 <= i < |p| ==> IsDigit(p[i]) || (i == 0 && Signed(p))
  {
    var digits := Unsigned(p);
    ValueBound(digits);
    PowerGrows(|digits|, MAX_DIGITS);
    SixDigits();
    if Signed(p) {
      ValuePrint(Component(p).value);
      assert p[1..] == digits;
    } else {
      PrintValue(p);
    }
  }

  predicate Denotes(digits: Str, n: nat) {
    digits != [] && AllDigits(digits) && Value(digits) == n
  }

  /** Exactly which spellings a component has: up to six characters, either digits without a leading zero,
    or digits after a plus sign, or only zeros after a minus sign. */
  lemma ComponentExactly(p: Str, n: nat)
    ensures Component(p) == Some(n) <==>
            && 1 <= |p| <= 6
            && ((Denotes(p, n) && (p[0] != 48 || |p| == 1))
                || (p[0] == 43 && Denotes(p[1..], n))
                || (p[0] == 45 && Denotes(p[1..], n) && n == 0))
  {
  }

  /** A version is one to four components between dots. */
  lemma VersionExactly(v: Str)
    ensures Parse(v).Some? <==> |Split(v)| <= 4 && forall i :: 0 <= i < |Split(v)| ==> Component(Split(v)[i]).Some?
  {
    ComponentsEach(Split(v));
  }

  lemma PrintedComponent(n: nat)
    requires n < COMPONENT_LIMIT
    ensures Component(Print(n)) == Some(n) && DOT !in Print(n) && !Signed(Print(n))
  {
    ValuePrint(n);
    SixDigits();
    PrintLength(n, MAX_DIGITS);
  }

  // ----- Whole versions -----

  function PrintAll(cs: seq<nat>): (parts: seq<Str>)
    ensures |parts| == |cs|
    ensures forall i :: 0 <= i < |cs| ==> parts[i] == Print(cs[i])
  {
    seq(|cs|, i requires 0 <= i < |cs| => Print(cs[i]))
  }

  /** The canonical spelling of a list of components. */
  function Render(cs: seq<nat>): Str
    requires 1 <= |cs|
  {
    Join(PrintAll(cs))
  }

  predicate IsVersion(cs: seq<nat>) {
    1 <= |cs| <= MAX_PARTS && forall i :: 0 <= i < |cs| ==> cs[i] < COMPONENT_LIMIT
  }

  lemma {:induction false} ComponentsEach(parts: seq<Str>)
    ensures Components(parts).Some? <==> forall i :: 0 <= i < |parts| ==> Component(parts[i]).Some?
    ensures Components(parts).Some? ==>
              |Components(parts).value| == |parts|
              && forall i :: 0 <= i < |parts| ==> Component(parts[i]) == Some(Components(parts).value[i])
  {
    if parts != [] {
      var init := parts[..|parts| - 1];
      ComponentsEach(init);
      assert forall i :: 0 <= i < |init| ==> init[i] == parts[i];
    }
  }

  /** Every accepted version has one to four components, each below 10^6. */
  lemma ParseRange(v: Str)
    requires Parse(v).Some?
    ensures IsVersion(Parse(v).value)
  {
    var parts := Split(v);
    ComponentsEach(parts);
    forall i | 0 <= i < |parts|
      ensures Parse(v).value[i] < COMPONENT_LIMIT
    {
      ComponentRange(parts[i]);
    }
  }

  /** Reading back what was printed. */
  lemma ParseRender(cs: seq<nat>)
    requires IsVersion(cs)
    ensures Parse(Render(cs)) == Some(cs)
  {
    var parts := PrintAll(cs);
    forall i | 0 <= i < |cs|
      ensures Component(parts[i]) == Some(cs[i]) && DOT !in parts[i]
    {
      PrintedComponent(cs[i]);
    }
    SplitJoin(parts);
    ComponentsEach(parts);
    assert Components(parts).value == cs;
    assert Split([]) != parts;
  }

  predicate SignFree(v: Str) {
    PLUS !in v && MINUS !in v
  }

  lemma {:induction false} JoinMembers(parts: seq<Str>, b: Byte)
    requires 1 <= |parts| && b != DOT
    ensures b in Join(parts) <==> exists i :: 0 <= i < |parts| && b in parts[i]
  {
    if 1 < |parts| {
      var tail := parts[1..];
      JoinMembers(tail, b);
      if b in Join(parts) && b !in parts[0] {
        var i :| 0 <= i < |tail| && b in tail[i];
        assert b in parts[i + 1];
      }
      if i :| 0 <= i < |parts| && b in parts[i] {
        assert 0 < i ==> b in tail[i - 1];
      }
    }
  }

  lemma SignFreeParts(v: Str)
    requires Parse(v).Some?
    ensures SignFree(v) <==> forall i :: 0 <= i < |Split(v)| ==> !Signed(Split(v)[i])
  {
    var parts := Split(v);
    JoinSplit(v);
    ComponentsEach(parts);
    JoinMembers(parts, PLUS);
    JoinMembers(parts, MINUS);
    forall i | 0 <= i < |parts|
      ensures Signed(parts[i]) <==> PLUS in parts[i] || MINUS in parts[i]
    {
      ComponentRange(parts[i]);
    }
  }

  /** An accepted version is its own canonical spelling exactly when it contains no sign. */
  lemma RenderParse(v: Str)
    requires Parse(v).Some?
    ensures 1 <= |Parse(v).value|
    ensures v == Render(Parse(v).value) <==> SignFree(v)
  {
    ComponentsEach(Split(v));
    ParseRange(v);
    SignFreeParts(v);
    CanonicalParts(v);
    RenderSplit(Parse(v).value);
    JoinSplit(v);
  }

  lemma CanonicalParts(v: Str)
    requires Parse(v).Some?
    ensures Split(v) == PrintAll(Parse(v).value) <==> forall i :: 0 <= i < |Split(v)| ==> !Signed(Split(v)[i])
  {
    var parts, cs := Split(v), Parse(v).value;
    ComponentsEach(parts);
    forall i | 0 <= i < |parts|
      ensures parts[i] == PrintAll(cs)[i] <==> !Signed(parts[i])
    {
      ComponentRange(parts[i]);
    }
  }

  lemma RenderSplit(cs: seq<nat>)
    requires IsVersion(cs)
    ensures Split(Render(cs)) == PrintAll(cs)
  {
    forall i | 0 <= i < |cs|
      ensures DOT !in PrintAll(cs)[i]
    {
      PrintedComponent(cs[i]);
    }
    SplitJoin(PrintAll(cs));
  }

  /** So on sign-free versions parsing is injective; a sign breaks that: `+4` and `4` are one version. */
  lemma ParseInjective(v: Str, w: Str)
    requires Parse(v).Some? && Parse(v) == Parse(w) && SignFree(v) && SignFree(w)
    ensures v == w
  {
    RenderParse(v);
    RenderParse(w);
  }

  lemma SignedSpelling()
    ensures Parse(Ascii("+4")) == Parse(Ascii("4")) == Some([4])
    ensures Parse(Ascii("-0")) == Some([0])
  {
    Spelled(Ascii("4"), 4);
    Spelled(Ascii("+4"), 4);
    Spelled(Ascii("-0"), 0);
  }

  lemma Spelled(p: Str, n: nat)
    requires DOT !in p && Component(p) == Some(n)
    ensures Parse(p) == Some([n])
  {
    SplitPlain(p);
    ComponentsEach([p]);
    assert Components([p]).value == [n];
  }

  /** An accepted version contains only digits, dots and signs. */
  lemma ParseAlphabet(v: Str, b: Byte)
    requires Parse(v).Some? && b in v
    ensures IsDigit(b) || b == DOT || b == PLUS || b == MINUS
  {
    var parts := Split(v);
    if b != DOT {
      JoinSplit(v);
      ComponentsEach(parts);
      JoinMembers(parts, b);
      var i :| 0 <= i < |parts| && b in parts[i];
      ComponentRange(parts[i]);
    }
  }

  // ----- The order -----

  function At(cs: seq<nat>, i: nat): nat {
    if i < |cs| then cs[i] else 0
  }

  /** The four components, padded with zeros, read as one number in base 10^6. */
  function Rank(cs: seq<nat>): nat {
    At(cs, 0) * 1_000_000_000_000_000_000 + At(cs, 1) * 1_000_000_000_000 + At(cs, 2) * 1_000_000 + At(cs, 3)
  }

  function Sign(n: int): int {
    if n < 0 then -1 else if n == 0 then 0 else 1
  }

  /** The rank of a version, and so its place in the order. */
  function RankOf(v: Str): nat
    requires Parse(v).Some?
  {
    Rank(Parse(v).value)
  }

  function Compare(a: Str, b: Str): Option<int> {
    if Parse(a) == None || Parse(b) == None then None else Some(Sign(RankOf(a) - RankOf(b)))
  }

  lemma RankDecides(a: seq<nat>, b: seq<nat>, i: nat)
    requires IsVersion(a) && IsVersion(b) && i < MAX_PARTS
    requires forall k: nat :: k < i ==> At(a, k) == At(b, k)
    requires At(a, i) < At(b, i)
    ensures Rank(a) < Rank(b)
  {
    assert forall k: nat :: At(a, k) < COMPONENT_LIMIT && At(b, k) < COMPONENT_LIMIT;
    if i == 0 {
      assert At(a, 1) < COMPONENT_LIMIT && At(a, 2) < COMPONENT_LIMIT && At(a, 3) < COMPONENT_LIMIT;
    } else if i == 1 {
      assert At(a, 0) == At(b, 0);
      assert At(a, 2) < COMPONENT_LIMIT && At(a, 3) < COMPONENT_LIMIT;
    } else if i == 2 {
      assert At(a, 0) == At(b, 0) && At(a, 1) == At(b, 1);
      assert At(a, 3) < COMPONENT_LIMIT;
    } else {
      assert At(a, 0) == At(b, 0) && At(a, 1) == At(b, 1) && At(a, 2) == At(b, 2);
    }
  }

  lemma {:induction false} RankEqual(a: seq<nat>, b: seq<nat>)
    requires IsVersion(a) && IsVersion(b)
    ensures Rank(a) == Rank(b) <==> forall k: nat :: k < MAX_PARTS ==> At(a, k) == At(b, k)
  {
    if k: nat :| k < MAX_PARTS && At(a, k) != At(b, k) && forall j: nat :: j < k ==> At(a, j) == At(b, j) {
      if At(a, k) < At(b, k) {
        RankDecides(a, b, k);
      } else {
        RankDecides(b, a, k);
      }
    } else {
      assert At(a, 0) == At(b, 0);
      assert At(a, 1) == At(b, 1);
      assert At(a, 2) == At(b, 2);
      assert At(a, 3) == At(b, 3);
    }
  }

  /** Two versions tie exactly when they are equal after padding with zeros, as 1.4 and 1.4.0 are. */
  lemma CompareTies(a: Str, b: Str)
    requires Parse(a).Some? && Parse(b).Some?
    ensures Compare(a, b) == Some(0) <==>
            forall k: nat :: k < MAX_PARTS ==> At(Parse(a).value, k) == At(Parse(b).value, k)
    ensures RankOf(a) < RANK_LIMIT
  {
    ParseRange(a);
    ParseRange(b);
    RankEqual(Parse(a).value, Parse(b).value);
    assert forall k: nat :: At(Parse(a).value, k) < COMPONENT_LIMIT;
    assert At(Parse(a).value, 0) < COMPONENT_LIMIT && At(Parse(a).value, 1) < COMPONENT_LIMIT;
  }

  predicate BeatsPrevious(vs: seq<Str>, i: nat)
    requires 0 < i < |vs|
  {
    Compare(vs[i], vs[i - 1]) == Some(1)
  }

  // ----- The order in the components as printed -----

  /** A missing component counts as zero, no more and no less: 1.4 and 1.4.0 are one version, and any other
    further component makes a newer one. */
  lemma MissingIsZero(cs: seq<nat>, n: nat)
    requires 1 <= |cs| < 4 && n < 1000000 && forall i :: 0 <= i < |cs| ==> cs[i] < 1000000
    ensures Compare(Render(cs + [n]), Render(cs)) == Some(if n == 0 then 0 else 1)
    ensures Compare(Render(cs), Render(cs + [n])) == Some(if n == 0 then 0 else -1)
  {
    ParseRender(cs);
    ParseRender(cs + [n]);
    assert forall i :: 0 <= i < |cs| ==> (cs + [n])[i] == cs[i];
    assert (cs + [n])[|cs|] == n;
  }

  /** The first component in which two versions differ decides, whatever follows and however many. */
  lemma FirstDifferenceDecides(p: seq<nat>, x: nat, s: seq<nat>, y: nat, t: seq<nat>)
    requires |p| + 1 + |s| <= 4 && |p| + 1 + |t| <= 4 && x < y
    requires IsVersion(p + [x] + s) && IsVersion(p + [y] + t)
    ensures Compare(Render(p + [x] + s), Render(p + [y] + t)) == Some(-1)
    ensures Compare(Render(p + [y] + t), Render(p + [x] + s)) == Some(1)
  {
    var a, b := p + [x] + s, p + [y] + t;
    ParseRender(a);
    ParseRender(b);
    assert a[|p|] == x && b[|p|] == y;
    assert forall k :: 0 <= k < |p| ==> a[k] == p[k] == b[k];
    RankDecides(a, b, |p|);
  }

  /** Each version beats the one before it. */
  predicate Increasing(vs: seq<Str>) {
    && (forall i :: 0 <= i < |vs| ==> Parse(vs[i]).Some?)
    && (forall i :: 0 < i < |vs| ==> BeatsPrevious(vs, i))
  }

  predicate Rises(ranks: seq<int>, i: nat)
    requires 0 < i < |ranks|
  {
    ranks[i - 1] < ranks[i]
  }

  lemma {:induction false} RisesFrom(ranks: seq<int>, i: nat, j: nat)
    requires i < j < |ranks| && forall k :: 0 < k < |ranks| ==> Rises(ranks, k)
    ensures ranks[i] + (j - i) <= ranks[j]
  {
    if i < j - 1 {
      RisesFrom(ranks, i, j - 1);
    }
    assert Rises(ranks, j);
  }

  lemma NewerByRank(a: Str, b: Str)
    requires Parse(a).Some? && Parse(b).Some?
    ensures Compare(a, b) == Some(1) <==> RankOf(b) < RankOf(a)
  {
  }

  function RanksOf(vs: seq<Str>): (ranks: seq<int>)
    requires forall i :: 0 <= i < |vs| ==> Parse(vs[i]).Some?
    ensures |ranks| == |vs| && forall i :: 0 <= i < |vs| ==> ranks[i] == RankOf(vs[i])
  {
    seq(|vs|, i requires 0 <= i < |vs| => RankOf(vs[i]))
  }

  lemma RanksRise(vs: seq<Str>)
    requires Increasing(vs)
    ensures forall k :: 0 < k < |vs| ==> Rises(RanksOf(vs), k)
  {
    forall k | 0 < k < |vs|
      ensures Rises(RanksOf(vs), k)
    {
      assert BeatsPrevious(vs, k);
      NewerByRank(vs[k], vs[k - 1]);
    }
  }

  /** In a chain of ever newer versions every one beats all before it. */
  lemma IncreasingBeats(vs: seq<Str>, i: nat, j: nat)
    requires Increasing(vs) && i < j < |vs|
    ensures Compare(vs[j], vs[i]) == Some(1)
  {
    RanksRise(vs);
    RisesFrom(RanksOf(vs), i, j);
    NewerByRank(vs[j], vs[i]);
  }

  lemma IncreasingRanks(vs: seq<Str>, i: nat, j: nat)
    requires Increasing(vs) && i < j < |vs|
    ensures RankOf(vs[i]) + (j - i) <= RankOf(vs[j])
  {
    RanksRise(vs);
    RisesFrom(RanksOf(vs), i, j);
  }

  /** No chain of ever newer versions is longer than 10^24. */
  lemma ChainBound(vs: seq<Str>)
    requires Increasing(vs)
    ensures |vs| <= RANK_LIMIT
  {
    if 1 < |vs| {
      IncreasingRanks(vs, 0, |vs| - 1);
      CompareTies(vs[|vs| - 1], vs[0]);
    }
  }

  // ----- The code -----

  method ParseVersion(v: Str) returns (r: Option<seq<nat>>)
    ensures r == Parse(v)
  {
    if v == [] {
      return None;
    }
    var parts := Split(v);
    if MAX_PARTS < |parts| {
      return None;
    }
    ComponentsEach(parts);
    var out := new nat[|parts|];
    for i := 0 to |parts|
      invariant forall k :: 0 <= k < i ==> Component(parts[k]) == Some(out[k])
    {
      var p := parts[i];
      if p == [] || MAX_DIGITS < |p| || (1 < |p| && p[0] == ZERO) {
        return None;
      }
      var n := Atoi(p);
      if n == None || n.value < 0 {
        return None;
      }
      out[i] := n.value;
    }
    assert out[..] == Components(parts).value;
    return Some(out[..]);
  }

  method CompareVersions(a: Str, b: Str) returns (r: Option<int>)
    ensures r == Compare(a, b)
  {
    var av := ParseVersion(a);
    if av.None? {
      return None;
    }
    var bv := ParseVersion(b);
    if bv.None? {
      return None;
    }
    ParseRange(a);
    ParseRange(b);
    var c := CompareComponents(av.value, bv.value);
    return Some(c);
  }

  /** The loop of `CompareVersions`. */
  method CompareComponents(av: seq<nat>, bv: seq<nat>) returns (r: int)
    requires IsVersion(av) && IsVersion(bv)
    ensures r == Sign(Rank(av) - Rank(bv))
  {
    var n := if |av| < |bv| then |bv| else |av|;
    for i := 0 to n
      invariant forall k: nat :: k < i ==> At(av, k) == At(bv, k)
    {
      var x, y := At(av, i), At(bv, i);
      if x < y {
        RankDecides(av, bv, i);
        return -1;
      }
      if y < x {
        RankDecides(bv, av, i);
        return 1;
      }
    }
    RankEqual(av, bv);
    return 0;
  }
}
