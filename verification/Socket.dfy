/** pkg/libmica/socket.go: rx looks for a marker in a reply that arrives in chunks. */
module Socket {
  const MICA_SUCCESS: string := "MICA-SUCCESS"
  const MICA_FAILED: string := "MICA-FAILED"
  const BUF_SIZE: nat := 512

  /** NoVerdict stands for every error return: timeout, broken connection, end of the reply. */
  datatype Verdict = Success | Failure | NoVerdict

  /** strings.Contains */
  predicate Contains(s: string, m: string) {
    exists i | 0 <= i <= |s| :: OccursAt(s, m, i)
  }

  predicate OccursAt(s: string, m: string, i: nat) {
    i + |m| <= |s| && s[i..i + |m|] == m
  }

  predicate Good(reply: string) {
    Contains(reply, MICA_SUCCESS) && !Contains(reply, MICA_FAILED)
  }

  function Concat(chunks: seq<string>): string {
    if chunks == [] then "" else chunks[0] + Concat(chunks[1..])
  }

  /** The verdict of the rest of the loop once buffer has been received; the chunks end with a read error. */
  function RxFrom(buffer: string, chunks: seq<string>): Verdict
    decreases |chunks|
  {
    if chunks == [] || chunks[0] == "" then NoVerdict
    else
      var response := buffer + chunks[0];
      if Contains(response, MICA_FAILED) then Failure
      else if Contains(response, MICA_SUCCESS) then Success
      else RxFrom(response, chunks[1..])
  }

  method Rx(chunks: seq<string>) returns (v: Verdict)
    ensures v == RxFrom("", chunks)
  {
    var responseBuffer := "";
    var n := 0;
    assert chunks[0..] == chunks;
    while n < |chunks|
      invariant 0 <= n <= |chunks|
      invariant RxFrom(responseBuffer, chunks[n..]) == RxFrom("", chunks)
    {
      var buf := chunks[n];
      assert chunks[n..][0] == buf && chunks[n..][1..] == chunks[n + 1..];
      n := n + 1;
      if |buf| == 0 {
        break;
      }
      responseBuffer := responseBuffer + buf;
      if Contains(responseBuffer, MICA_FAILED) {
        return Failure;
      } else if Contains(responseBuffer, MICA_SUCCESS) {
        return Success;
      }
    }
    return NoVerdict;
  }

  // ---------- what decides ----------

  lemma ContainsMore(s: string, t: string, m: string)
    requires s <= t && Contains(s, m)
    ensures Contains(t, m)
  {
    var i :| 0 <= i <= |s| && OccursAt(s, m, i);
    assert t[i..i + |m|] == s[i..i + |m|];
    assert OccursAt(t, m, i);
  }

  /** A split of a reply into the chunks that the reads deliver. */
  ghost predicate SplitOf(chunks: seq<string>, reply: string) {
    Concat(chunks) == reply && forall c | c in chunks :: 0 < |c| <= BUF_SIZE
  }

  ghost predicate GoodAt(buffer: string, chunks: seq<string>, k: nat) {
    k <= |chunks| && Good(buffer + Concat(chunks[..k]))
  }

  ghost predicate EverGood(buffer: string, chunks: seq<string>) {
    exists k: nat :: GoodAt(buffer, chunks, k)
  }

  lemma {:induction false} ConcatTake(chunks: seq<string>, k: nat)
    requires k <= |chunks|
    ensures Concat(chunks[..k]) <= Concat(chunks)
  {
    if k > 0 {
      ConcatTake(chunks[1..], k - 1);
      assert chunks[..k][1..] == chunks[1..][..k - 1];
    }
  }

  lemma EverGoodStep(buffer: string, chunks: seq<string>)
    requires chunks != [] && !Good(buffer)
    ensures EverGood(buffer, chunks) <==> EverGood(buffer + chunks[0], chunks[1..])
  {
    forall k: nat | 1 <= k <= |chunks|
      ensures buffer + Concat(chunks[..k]) == buffer + chunks[0] + Concat(chunks[1..][..k - 1])
    {
      assert chunks[..k][1..] == chunks[1..][..k - 1];
      assert buffer + (chunks[0] + Concat(chunks[1..][..k - 1])) == buffer + chunks[0] + Concat(chunks[1..][..k - 1]);
    }
    if k: nat :| GoodAt(buffer, chunks, k) {
      assert buffer + Concat(chunks[..0]) == buffer;
      assert GoodAt(buffer + chunks[0], chunks[1..], k - 1);
    }
    if k: nat :| GoodAt(buffer + chunks[0], chunks[1..], k) {
      assert chunks[1..][..k] == chunks[1..][..(k + 1) - 1];
      assert GoodAt(buffer, chunks, k + 1);
    }
  }

  /** Success is returned exactly when some prefix that ends with a chunk has the success marker and not
      the failure marker; without one, a failure marker anywhere decides. */
  lemma {:induction false} RxDecides(buffer: string, chunks: seq<string>)
    requires !Contains(buffer, MICA_SUCCESS) && !Contains(buffer, MICA_FAILED)
    requires forall c | c in chunks :: c != ""
    ensures RxFrom(buffer, chunks)
         == if EverGood(buffer, chunks) then Success
            else if Contains(buffer + Concat(chunks), MICA_FAILED) then Failure
            else NoVerdict
    decreases |chunks|
  {
    if chunks == [] {
      assert buffer + Concat(chunks) == buffer;
      assert !GoodAt(buffer, chunks, 0);
    } else {
      var response := buffer + chunks[0];
      var whole := buffer + Concat(chunks);
      assert whole == response + Concat(chunks[1..]);
      EverGoodStep(buffer, chunks);
      assert chunks[0] in chunks && forall c | c in chunks[1..] :: c in chunks;
      if Contains(response, MICA_FAILED) {
        ContainsMore(response, whole, MICA_FAILED);
        NeverGoodAfterFailure(response, chunks[1..]);
      } else if Contains(response, MICA_SUCCESS) {
        assert response + Concat(chunks[1..][..0]) == response;
        assert GoodAt(response, chunks[1..], 0);
      } else {
        RxDecides(response, chunks[1..]);
      }
    }
  }

  lemma NeverGoodAfterFailure(buffer: string, chunks: seq<string>)
    requires Contains(buffer, MICA_FAILED)
    ensures !EverGood(buffer, chunks)
  {
    if k: nat :| GoodAt(buffer, chunks, k) {
      ContainsMore(buffer, buffer + Concat(chunks[..k]), MICA_FAILED);
    }
  }

  /** A text holds the marker exactly when it is the marker with something before and after it. */
  lemma ContainsIff(s: string, m: string)
    ensures Contains(s, m) <==> exists i | 0 <= i <= |s| - |m| :: s == s[..i] + m + s[i + |m|..]
  {
    forall i | 0 <= i <= |s| - |m|
      ensures OccursAt(s, m, i) <==> s == s[..i] + m + s[i + |m|..]
    {
      Surrounded(s, m, i);
    }
  }

  lemma Surrounded(s: string, m: string, i: nat)
    requires i + |m| <= |s|
    ensures s[i..i + |m|] == m <==> s == s[..i] + m + s[i + |m|..]
  {
    var t := s[..i] + m + s[i + |m|..];
    assert t[i..i + |m|] == m;
    assert s == s[..i] + s[i..i + |m|] + s[i + |m|..];
  }

  /** An empty read ends the search: nothing that comes after it counts. */
  lemma {:induction false} EmptyReadEnds(buffer: string, before: seq<string>, after: seq<string>)
    ensures RxFrom(buffer, before + [""] + after) == RxFrom(buffer, before)
    decreases |before|
  {
    var all := before + [""] + after;
    if before == [] {
      assert all[0] == "";
    } else {
      assert all[0] == before[0] && all[1..] == before[1..] + [""] + after;
      EmptyReadEnds(buffer + before[0], before[1..], after);
    }
  }

  lemma EmptyHasNoMarker()
    ensures !Contains("", MICA_SUCCESS) && !Contains("", MICA_FAILED)
  {
  }

  /** A reply with only one kind of marker gets the same answer however it is split,
      even through the middle of the marker. */
  lemma OneMarker(chunks: seq<string>, reply: string)
    requires SplitOf(chunks, reply)
    ensures !Contains(reply, MICA_FAILED) ==>
              RxFrom("", chunks) == if Contains(reply, MICA_SUCCESS) then Success else NoVerdict
    ensures !Contains(reply, MICA_SUCCESS) ==>
              RxFrom("", chunks) == if Contains(reply, MICA_FAILED) then Failure else NoVerdict
  {
    EmptyHasNoMarker();
    RxDecides("", chunks);
    assert "" + Concat(chunks) == reply;
    if k: nat :| GoodAt("", chunks, k) {
      ConcatTake(chunks, k);
      assert "" + Concat(chunks[..k]) == Concat(chunks[..k]);
      ContainsMore(Concat(chunks[..k]), reply, MICA_SUCCESS);
    }
    if Good(reply) {
      assert chunks[..|chunks|] == chunks;
      assert GoodAt("", chunks, |chunks|);
    }
  }

  // ---------- when the split matters ----------

  /** The marker is complete after n characters of the reply and not before. */
  ghost predicate CompleteAt(reply: string, m: string, n: nat) {
    0 < n <= |reply| && Contains(reply[..n], m) && !Contains(reply[..n - 1], m)
  }

  /** Success completes first, and one read can bring the failure marker along with its last character. */
  ghost predicate Ambiguous(reply: string) {
    exists s: nat, f: nat :: CompleteAt(reply, MICA_SUCCESS, s) && CompleteAt(reply, MICA_FAILED, f) && s < f && f - s < BUF_SIZE
  }

  ghost predicate SplitMatters(reply: string) {
    exists a, b :: SplitOf(a, reply) && SplitOf(b, reply) && RxFrom("", a) != RxFrom("", b)
  }

  lemma {:induction false} FirstComplete(reply: string, m: string, n: nat) returns (k: nat)
    requires n <= |reply| && Contains(reply[..n], m) && m != ""
    ensures k <= n && CompleteAt(reply, m, k)
  {
    assert n > 0;
    if Contains(reply[..n - 1], m) {
      k := FirstComplete(reply, m, n - 1);
    } else {
      k := n;
    }
  }

  lemma PrefixContains(reply: string, m: string, a: nat, b: nat)
    requires a <= b <= |reply| && Contains(reply[..a], m)
    ensures Contains(reply[..b], m)
  {
    ContainsMore(reply[..a], reply[..b], m);
  }

  lemma CompleteDecides(reply: string, m: string, n: nat, b: nat)
    requires CompleteAt(reply, m, n) && b <= |reply|
    ensures Contains(reply[..b], m) <==> n <= b
  {
    if n <= b {
      PrefixContains(reply, m, n, b);
    } else if Contains(reply[..b], m) {
      PrefixContains(reply, m, b, n - 1);
    }
  }

  lemma PrefixIsGood(reply: string, s: nat, f: nat, b: nat)
    requires CompleteAt(reply, MICA_SUCCESS, s) && CompleteAt(reply, MICA_FAILED, f) && b <= |reply|
    ensures Good(reply[..b]) <==> s <= b < f
  {
    CompleteDecides(reply, MICA_SUCCESS, s, b);
    CompleteDecides(reply, MICA_FAILED, f, b);
  }

  function Singles(s: string): (cs: seq<string>)
    ensures |cs| == |s| && forall i | 0 <= i < |cs| :: cs[i] == [s[i]]
  {
    seq(|s|, i requires 0 <= i < |s| => [s[i]])
  }

  lemma {:induction false} ConcatSingles(s: string)
    ensures Concat(Singles(s)) == s
  {
    if s != "" {
      ConcatSingles(s[1..]);
      assert Singles(s)[1..] == Singles(s[1..]);
      assert s == [s[0]] + s[1..];
    }
  }

  lemma {:induction false} ConcatApart(a: seq<string>, b: seq<string>)
    ensures Concat(a + b) == Concat(a) + Concat(b)
  {
    if a == [] {
      assert a + b == b;
    } else {
      assert (a + b)[1..] == a[1..] + b;
      ConcatApart(a[1..], b);
    }
  }

  /** Reading one character at a time sees success complete first. */
  lemma SinglesSucceed(reply: string, s: nat, f: nat)
    requires CompleteAt(reply, MICA_SUCCESS, s) && CompleteAt(reply, MICA_FAILED, f) && s < f
    ensures SplitOf(Singles(reply), reply) && RxFrom("", Singles(reply)) == Success
  {
    var a := Singles(reply);
    ConcatSingles(reply);
    EmptyHasNoMarker();
    RxDecides("", a);
    ConcatSingles(reply[..s]);
    assert a[..s] == Singles(reply[..s]);
    assert "" + Concat(a[..s]) == reply[..s];
    PrefixIsGood(reply, s, f, s);
    assert GoodAt("", a, s);
  }

  /** A split without a chunk boundary from s up to f sees both markers at once. */
  function Jump(reply: string, s: nat, f: nat): seq<string>
    requires 0 < s < f <= |reply|
  {
    Singles(reply[..s - 1]) + [reply[s - 1..f]] + Singles(reply[f..])
  }

  lemma JumpIsSplit(reply: string, s: nat, f: nat)
    requires 0 < s < f <= |reply| && f - s < BUF_SIZE
    ensures SplitOf(Jump(reply, s, f), reply)
  {
    var head, mid, tail := Singles(reply[..s - 1]), [reply[s - 1..f]], Singles(reply[f..]);
    ConcatSingles(reply[..s - 1]);
    ConcatSingles(reply[f..]);
    ConcatApart(head + mid, tail);
    ConcatApart(head, mid);
    ConcatOne(reply[s - 1..f]);
    ThreeParts(reply, s - 1, f);
  }

  lemma ConcatOne(chunk: string)
    ensures Concat([chunk]) == chunk
  {
    assert [chunk][1..] == [];
  }

  lemma ThreeParts(s: string, i: nat, j: nat)
    requires i <= j <= |s|
    ensures s[..i] + s[i..j] + s[j..] == s
  {
  }

  lemma JumpPrefix(reply: string, s: nat, f: nat, k: nat)
    requires 0 < s < f <= |reply| && f - s < BUF_SIZE && k <= |Jump(reply, s, f)|
    ensures var p := Concat(Jump(reply, s, f)[..k]); p <= reply && (|p| < s || |p| >= f)
  {
    var j := Jump(reply, s, f);
    JumpIsSplit(reply, s, f);
    ConcatTake(j, k);
    var head := Singles(reply[..s - 1]);
    if k < s {
      assert j[..k] == Singles(reply[..k]);
      ConcatSingles(reply[..k]);
    } else {
      var upTo := head + [reply[s - 1..f]];
      ConcatSingles(reply[..s - 1]);
      ConcatApart(head, [reply[s - 1..f]]);
      ConcatOne(reply[s - 1..f]);
      assert j[..k][..s] == upTo;
      ConcatTake(j[..k], s);
    }
  }

  lemma JumpFails(reply: string, s: nat, f: nat)
    requires CompleteAt(reply, MICA_SUCCESS, s) && CompleteAt(reply, MICA_FAILED, f) && s < f && f - s < BUF_SIZE
    ensures RxFrom("", Jump(reply, s, f)) == Failure
  {
    var j := Jump(reply, s, f);
    JumpIsSplit(reply, s, f);
    EmptyHasNoMarker();
    RxDecides("", j);
    if k: nat :| GoodAt("", j, k) {
      JumpPrefix(reply, s, f, k);
      var p := Concat(j[..k]);
      assert "" + p == p && reply[..|p|] == p;
      PrefixIsGood(reply, s, f, |p|);
    }
    PrefixContains(reply, MICA_FAILED, f, |reply|);
    assert "" + Concat(j) == reply && reply[..|reply|] == reply;
  }

  /** Some chunk boundary falls into any window as wide as a read. */
  lemma {:induction false} BoundaryInWindow(chunks: seq<string>, s: nat, f: nat) returns (k: nat)
    requires forall c | c in chunks :: 0 < |c| <= BUF_SIZE
    requires 0 < s && f - s >= BUF_SIZE && f <= |Concat(chunks)|
    ensures k <= |chunks| && s <= |Concat(chunks[..k])| < f
    decreases |chunks|
  {
    var n := |chunks| - 1;
    assert chunks == chunks[..n] + [chunks[n]];
    ConcatApart(chunks[..n], [chunks[n]]);
    assert Concat([chunks[n]]) == chunks[n] by { assert [chunks[n]][1..] == []; }
    if f <= |Concat(chunks[..n])| {
      k := BoundaryInWindow(chunks[..n], s, f);
      assert chunks[..n][..k] == chunks[..k];
    } else {
      assert chunks[n] in chunks;
      k := n;
    }
  }

  /** With both markers in the reply, the answer of any split is fixed unless the reply is ambiguous. */
  lemma AnswerFixed(chunks: seq<string>, reply: string, s: nat, f: nat)
    requires SplitOf(chunks, reply)
    requires CompleteAt(reply, MICA_SUCCESS, s) && CompleteAt(reply, MICA_FAILED, f)
    requires f <= s || f - s >= BUF_SIZE
    ensures RxFrom("", chunks) == if f <= s then Failure else Success
  {
    EmptyHasNoMarker();
    RxDecides("", chunks);
    assert "" + Concat(chunks) == reply && reply[..|reply|] == reply;
    PrefixContains(reply, MICA_FAILED, f, |reply|);
    if f <= s {
      if k: nat :| GoodAt("", chunks, k) {
        ConcatTake(chunks, k);
        var p := Concat(chunks[..k]);
        assert "" + p == p && reply[..|p|] == p;
        PrefixIsGood(reply, s, f, |p|);
      }
    } else {
      var k := BoundaryInWindow(chunks, s, f);
      ConcatTake(chunks, k);
      var p := Concat(chunks[..k]);
      assert "" + p == p && reply[..|p|] == p;
      PrefixIsGood(reply, s, f, |p|);
      assert GoodAt("", chunks, k);
    }
  }

  /** The answer depends on how the reply is split exactly when the reply is ambiguous. */
  lemma SplitMattersIff(reply: string)
    ensures SplitMatters(reply) <==> Ambiguous(reply)
  {
    if Ambiguous(reply) {
      var s: nat, f: nat :| CompleteAt(reply, MICA_SUCCESS, s) && CompleteAt(reply, MICA_FAILED, f) && s < f && f - s < BUF_SIZE;
      SinglesSucceed(reply, s, f);
      JumpIsSplit(reply, s, f);
      JumpFails(reply, s, f);
    }
    if SplitMatters(reply) {
      var a, b :| SplitOf(a, reply) && SplitOf(b, reply) && RxFrom("", a) != RxFrom("", b);
      OneMarker(a, reply);
      OneMarker(b, reply);
      assert reply[..|reply|] == reply;
      var s := FirstComplete(reply, MICA_SUCCESS, |reply|);
      var f := FirstComplete(reply, MICA_FAILED, |reply|);
      if f <= s || f - s >= BUF_SIZE {
        AnswerFixed(a, reply, s, f);
        AnswerFixed(b, reply, s, f);
      }
    }
  }

  /** Such replies exist: with one marker right after the other, the answer depends on how they are split. */
  lemma BothMarkers()
    ensures SplitMatters(MICA_SUCCESS + MICA_FAILED)
  {
    SuccessFirst();
    FailureNext();
    SplitMattersIff(MICA_SUCCESS + MICA_FAILED);
  }

  lemma SuccessFirst()
    ensures CompleteAt(MICA_SUCCESS + MICA_FAILED, MICA_SUCCESS, 12)
  {
    var reply := MICA_SUCCESS + MICA_FAILED;
    assert reply[..12] == MICA_SUCCESS;
    assert OccursAt(reply[..12], MICA_SUCCESS, 0);
  }

  lemma FailureNext()
    ensures CompleteAt(MICA_SUCCESS + MICA_FAILED, MICA_FAILED, 23)
  {
    var reply := MICA_SUCCESS + MICA_FAILED;
    assert reply[..23] == reply;
    assert OccursAt(reply[..23], MICA_FAILED, 12);
    assert MICA_FAILED[10] == 'D' && reply[..22] == "MICA-SUCCESSMICA-FAILE";
    LetterMissing(reply[..22], MICA_FAILED, 10);
  }

  /** A text without one of its letters does not hold the marker. */
  lemma LetterMissing(s: string, m: string, n: nat)
    requires n < |m| && m[n] !in s
    ensures !Contains(s, m)
  {
    forall i | 0 <= i <= |s|
      ensures !OccursAt(s, m, i)
    {
      assert i + |m| <= |s| ==> s[i..i + |m|][n] == s[i + n];
    }
  }
}
