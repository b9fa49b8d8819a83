/** The CSV writer of an export: it keeps bytes back in a buffer and passes them on to the client when it
  sees fit. */
module Csv {
  import opened Bytes
  import opened Flatten

  const LINE_END: Byte := 10

  /** What a call did besides buffering: how many bytes it left in the buffer, and whether every attempt to
    pass bytes on succeeded. The library's buffering and the connection's failures are both in here. */
  datatype Push = Push(left: nat, ok: bool)

  /** After a failure the writer takes nothing more. */
  datatype Output = Output(sent: Str, buffered: Str, failed: bool, calls: nat)

  const NOTHING := Output([], [], false, 0)

  function Passed(left: nat, size: nat): (n: nat)
    ensures n <= size && (n == size <==> left == 0 || size == 0)
  {
    if size <= left then 0 else size - left
  }

  function Put(o: Output, line: Str, push: nat -> Push): Output {
    if o.failed then o
    else
      var all := o.buffered + line;
      var n := Passed(push(o.calls).left, |all|);
      Output(o.sent + all[..n], all[n..], !push(o.calls).ok, o.calls + 1)
  }

  /** The final flush: unless it fails it empties the buffer, and an empty buffer it leaves alone. */
  function Finish(o: Output, push: nat -> Push): Output {
    if o.failed || o.buffered == [] then o
    else
      var p := push(o.calls);
      var n := if p.ok then |o.buffered| else Passed(p.left, |o.buffered|);
      Output(o.sent + o.buffered[..n], o.buffered[n..], !p.ok, o.calls + 1)
  }

  /** A record as it goes into the buffer. */
  function Line<T>(encode: T -> Str): T -> Str {
    row => encode(row) + [LINE_END]
  }

  /** The complete file. */
  function Text<T>(encode: T -> Str, rows: seq<T>): Str {
    Concat(Line(encode), rows)
  }

  /** The file row by row: each is written out and ended with a newline, after those before it. */
  lemma TextExactly<T>(encode: T -> Str, rows: seq<T>, row: T)
    ensures Text(encode, []) == []
    ensures Text(encode, rows + [row]) == Text(encode, rows) + (encode(row) + [10])
  {
    assert (rows + [row])[..|rows|] == rows;
  }

  function PutAll<T>(encode: T -> Str, push: nat -> Push, rows: seq<T>): Output {
    if rows == [] then NOTHING
    else Put(PutAll(encode, push, rows[..|rows| - 1]), Line(encode)(rows[|rows| - 1]), push)
  }

  function Final<T>(encode: T -> Str, push: nat -> Push, rows: seq<T>): Output {
    Finish(PutAll(encode, push, rows), push)
  }

  lemma PutOne<T>(encode: T -> Str, push: nat -> Push, rows: seq<T>, row: T)
    ensures PutAll(encode, push, rows + [row]) == Put(PutAll(encode, push, rows), Line(encode)(row), push)
  {
    assert (rows + [row])[..|rows|] == rows;
  }

  /** A writer that failed stays as it is, so stopping at a failure is the same as going on. */
  lemma {:induction false} FailedStays<T>(encode: T -> Str, push: nat -> Push, rows: seq<T>, more: seq<T>)
    requires PutAll(encode, push, rows).failed
    ensures PutAll(encode, push, rows + more) == PutAll(encode, push, rows)
  {
    if more == [] {
      assert rows + more == rows;
    } else {
      var n := |more| - 1;
      FailedStays(encode, push, rows, more[..n]);
      PutOne(encode, push, rows + more[..n], more[n]);
      assert rows + more[..n] + [more[n]] == rows + more;
    }
  }

  lemma PutNext<T>(encode: T -> Str, push: nat -> Push, rows: seq<T>, due: seq<T>, j: nat)
    requires j < |due|
    ensures PutAll(encode, push, rows + due[..j + 1]) ==
            Put(PutAll(encode, push, rows + due[..j]), Line(encode)(due[j]), push)
  {
    assert rows + due[..j] + [due[j]] == rows + due[..j + 1];
    PutOne(encode, push, rows + due[..j], due[j]);
  }

  lemma FailedRest<T>(encode: T -> Str, push: nat -> Push, rows: seq<T>, due: seq<T>, j: nat)
    requires j <= |due| && PutAll(encode, push, rows + due[..j]).failed
    ensures PutAll(encode, push, rows + due) == PutAll(encode, push, rows + due[..j])
  {
    assert rows + due[..j] + due[j..] == rows + due;
    FailedStays(encode, push, rows + due[..j], due[j..]);
  }

  // ----- What reaches the client -----

  /** The client has a proper part of the text, or of the text and the buffer together all of it. */
  predicate Accounts(o: Output, text: Str) {
    o.sent <= text && (!o.failed ==> o.sent + o.buffered == text)
  }

  lemma PutAccounts(o: Output, line: Str, push: nat -> Push, text: Str)
    requires Accounts(o, text)
    ensures Accounts(Put(o, line, push), text + line)
  {
    if !o.failed {
      var all := o.buffered + line;
      var n := Passed(push(o.calls).left, |all|);
      SplitAt(o.sent, all, n);
      ConcatAssoc(o.sent, o.buffered, line);
    }
  }

  lemma SplitAt(a: Str, b: Str, n: nat)
    requires n <= |b|
    ensures a + b[..n] <= a + b && a + b[..n] + b[n..] == a + b
  {
    assert b == b[..n] + b[n..];
  }

  lemma {:induction false} AllAccounted<T>(encode: T -> Str, push: nat -> Push, rows: seq<T>)
    ensures Accounts(PutAll(encode, push, rows), Text(encode, rows))
  {
    if rows != [] {
      var n := |rows| - 1;
      AllAccounted(encode, push, rows[..n]);
      PutAccounts(PutAll(encode, push, rows[..n]), Line(encode)(rows[n]), push, Text(encode, rows[..n]));
    }
  }

  /** A failed attempt that leaves a byte behind. */
  ghost predicate FailuresLose(push: nat -> Push) {
    forall k: nat :: !push(k).ok ==> 0 < push(k).left
  }

  lemma {:induction false} FailureLoses<T>(encode: T -> Str, push: nat -> Push, rows: seq<T>)
    requires FailuresLose(push) && PutAll(encode, push, rows).failed
    ensures |PutAll(encode, push, rows).sent| < |Text(encode, rows)|
  {
    var n := |rows| - 1;
    var o, line := PutAll(encode, push, rows[..n]), Line(encode)(rows[n]);
    AllAccounted(encode, push, rows[..n]);
    if o.failed {
      FailureLoses(encode, push, rows[..n]);
    } else {
      assert |Text(encode, rows)| == |o.sent| + |o.buffered| + |line|;
    }
  }

  /** What reaches the client is always the beginning of the file. It is the whole file if nothing failed,
    and, where a failure leaves something behind, only if nothing failed: the final flush counts. */
  lemma ClientReceives<T>(encode: T -> Str, push: nat -> Push, rows: seq<T>)
    ensures var o := Final(encode, push, rows);
            && o.sent <= Text(encode, rows)
            && (!o.failed ==> o.sent == Text(encode, rows))
            && (FailuresLose(push) ==> (o.sent == Text(encode, rows) <==> !o.failed))
  {
    var o := PutAll(encode, push, rows);
    AllAccounted(encode, push, rows);
    if o.failed {
      if FailuresLose(push) {
        FailureLoses(encode, push, rows);
      }
    } else if o.buffered == [] {
      assert o.sent + [] == o.sent;
    } else {
      var p := push(o.calls);
      SplitAt(o.sent, o.buffered, if p.ok then |o.buffered| else Passed(p.left, |o.buffered|));
      assert o.buffered[..|o.buffered|] == o.buffered;
    }
  }

  /** The calls that wrote rows succeeded exactly when none of them failed to pass bytes on. */
  lemma {:induction false} WritesSucceed<T>(encode: T -> Str, push: nat -> Push, rows: seq<T>)
    ensures var o := PutAll(encode, push, rows);
            && (!o.failed <==> forall k :: 0 <= k < |rows| ==> push(k).ok)
            && (!o.failed ==> o.calls == |rows|)
  {
    if rows != [] {
      WritesSucceed(encode, push, rows[..|rows| - 1]);
    }
  }

  /** A connection that first fails at the final flush of a file that fits the buffer. */
  function FailsAtFlush(left: nat, rows: nat): nat -> Push {
    (k: nat) => Push(left, k < rows)
  }

  lemma {:induction false} NothingSent<T>(encode: T -> Str, left: nat, n: nat, rows: seq<T>)
    requires |rows| <= n && |Text(encode, rows)| <= left
    ensures var o := PutAll(encode, FailsAtFlush(left, n), rows);
            o == Output([], Text(encode, rows), false, |rows|)
  {
    if rows != [] {
      NothingSent(encode, left, n, rows[..|rows| - 1]);
    }
  }

  /** Success of every row does not mean that the client has any of them: if the writer keeps all of the file
    back, as it does when the file fits its buffer, each call that writes a row succeeds and the final
    flush, whose outcome is not looked at, can lose the file. */
  lemma SilentLoss<T>(encode: T -> Str, rows: seq<T>)
    requires rows != []
    ensures var push := FailsAtFlush(|Text(encode, rows)|, |rows|);
            && !PutAll(encode, push, rows).failed
            && Final(encode, push, rows).sent == [] != Text(encode, rows)
  {
    NothingSent(encode, |Text(encode, rows)|, |rows|, rows);
  }

  // ----- The writer -----

  class Writer<T> {
    const encode: T -> Str
    const push: nat -> Push
    var sent: Str
    var buffered: Str
    var failed: bool
    var calls: nat

    constructor (encode: T -> Str, push: nat -> Push)
      ensures this.encode == encode && this.push == push && View() == NOTHING
    {
      this.encode, this.push, sent, buffered, failed, calls := encode, push, [], [], false, 0;
    }

    function View(): Output
      reads this
    {
      Output(sent, buffered, failed, calls)
    }

    method Write(row: T) returns (ok: bool)
      modifies this
      ensures View() == Put(old(View()), Line(encode)(row), push) && ok == !failed
    {
      if failed {
        return false;
      }
      buffered := buffered + (encode(row) + [LINE_END]);
      Pass(Passed(push(calls).left, |buffered|));
      return !failed;
    }

    method Flush()
      modifies this
      ensures View() == Finish(old(View()), push)
    {
      if !failed && buffered != [] {
        Pass(if push(calls).ok then |buffered| else Passed(push(calls).left, |buffered|));
      }
    }

    /** Hands the first bytes of the buffer to the client. */
    method Pass(n: nat)
      requires n <= |buffered|
      modifies this
      ensures sent == old(sent) + old(buffered)[..n] && buffered == old(buffered)[n..]
      ensures failed == !push(old(calls)).ok && calls == old(calls) + 1
    {
      sent, buffered := sent + buffered[..n], buffered[n..];
      failed := !push(calls).ok;
      calls := calls + 1;
    }
  }
}
