/**
 The answers of get (memcached.c): every hit adds three fragments to the response. When memory
 for one of them is refused, those before it stay, and the key is tried again.
 */
module GetAnswers {
  import opened Common
  import opened Response

  /** A hit: "VALUE ", the key, and the item's suffix and data in one piece. */
  function Answer(key: string, tail: string): string {
    "VALUE " + key + tail
  }

  /** What each key adds; a miss adds nothing. */
  function Answers(keys: seq<string>, found: map<string, string>): (r: seq<string>)
    ensures |r| == |keys|
    ensures forall i :: 0 <= i < |keys| ==> r[i] == if keys[i] in found then Answer(keys[i], found[keys[i]]) else []
  {
    seq(|keys|, i requires 0 <= i < |keys| => if keys[i] in found then Answer(keys[i], found[keys[i]]) else [])
  }

  // ------------------------------------------------- one attempt

  /** add_iov with room in the list of messages, as far as bytes and fragments go. */
  method Add(c: Conn, buf: string, memory: Memory) returns (ok: bool, ghost taken: nat)
    requires c.Valid()
    modifies c`iov, c`msgs, c`block, c`iovused, c`msgbytes, c`starved, c`overfull, c`msgsize, c`stream
    ensures c.Valid() && taken <= |buf| && c.stream == old(c.stream) + buf[..taken]
    ensures (ok ==> taken == |buf|) && (memory == Granted ==> ok)
    ensures Spent(memory, ok, old(c.iovused), old(|c.iov|), c.iovused, |c.iov|)
    ensures old(c.iovused) <= c.iovused <= |c.iov|
    ensures memory == Refused && old(c.iovused == |c.iov|) ==> !ok && taken == 0
    ensures memory == Refused && old(c.iovused < |c.iov|) && !c.udp && buf != [] ==> taken > 0
  {
    ok, taken := c.AddIov(buf, [], memory);
  }

  /** The same for the part of an answer that follows `before`. */
  method AddPart(c: Conn, buf: string, memory: Memory, ghost stream: string, ghost before: string, ghost answer: string)
    returns (ok: bool, ghost cut: nat)
    requires c.Valid() && c.stream == stream + before && before + buf <= answer
    modifies c`iov, c`msgs, c`block, c`iovused, c`msgbytes, c`starved, c`overfull, c`msgsize, c`stream
    ensures c.Valid() && |before| <= cut <= |before + buf| && c.stream == stream + answer[..cut]
    ensures (ok ==> cut == |before + buf|) && (memory == Granted ==> ok)
    ensures Spent(memory, ok, old(c.iovused), old(|c.iov|), c.iovused, |c.iov|)
    ensures old(c.iovused) <= c.iovused <= |c.iov|
    ensures memory == Refused && old(c.iovused == |c.iov|) ==> !ok && cut == |before|
    ensures memory == Refused && old(c.iovused < |c.iov|) && !c.udp && buf != [] ==> cut > |before|
  {
    ghost var t;
    ok, t := Add(c, buf, memory);
    cut := |before| + t;
    CutOf(stream, before, buf, answer, t);
  }

  lemma CutOf(stream: string, before: string, buf: string, answer: string, t: nat)
    requires before + buf <= answer && t <= |buf|
    ensures (stream + before) + buf[..t] == stream + answer[..|before| + t]
  {
    assert answer[..|before| + t] == (before + buf)[..|before| + t] == before + buf[..t];
  }

  /**
   One attempt at a hit: all of the answer, or its first `cut` bytes. An attempt that is refused
   all memory fails with fewer than three fragments to spare, and over TCP it leaves nothing
   behind exactly when there was none.
   */
  method AddAnswer(c: Conn, key: string, tail: string, memory: Memory) returns (ok: bool, ghost cut: nat)
    requires c.Valid()
    modifies c`iov, c`msgs, c`block, c`iovused, c`msgbytes, c`starved, c`overfull, c`msgsize, c`stream
    ensures c.Valid() && cut <= |Answer(key, tail)| && c.stream == old(c.stream) + Answer(key, tail)[..cut]
    ensures (ok ==> cut == |Answer(key, tail)|) && (memory == Granted ==> ok) && (!ok ==> c.iovused == |c.iov|)
    ensures memory == Refused && old(|c.iov| - c.iovused) < 3 ==> !ok
    ensures memory == Refused && !c.udp ==> (cut == 0 <==> old(c.iovused == |c.iov|))
  {
    ghost var stream, answer := c.stream, Answer(key, tail);
    assert stream + [] == stream && answer[..6] == "VALUE " && answer[..6 + |key|] == "VALUE " + key;
    assert answer[..|answer|] == answer;
    ok, cut := AddPart(c, "VALUE ", memory, stream, [], answer);
    if ok {
      ok, cut := AddPart(c, key, memory, stream, "VALUE ", answer);
    }
    if ok {
      ok, cut := AddPart(c, tail, memory, stream, "VALUE " + key, answer);
    }
  }

  // ------------------------------------------------- the loop over the keys

  /** What is left of the attempts at an answer that were refused after so many bytes. */
  function Torn(answer: string, cuts: seq<nat>): string {
    if cuts == [] then []
    else
      var n := cuts[|cuts| - 1];
      Torn(answer, cuts[..|cuts| - 1]) + if n <= |answer| then answer[..n] else answer
  }

  /** The bytes of the response: refusals of the key at `at` leave their pieces, and hide the keys behind it. */
  function Sent(answers: seq<string>, at: nat, cuts: seq<nat>): string {
    if cuts == [] || at >= |answers| then Join(answers)
    else Join(answers[..at]) + Torn(answers[at], cuts) + answers[at]
  }

  lemma {:induction false} TornEmptyIff(answer: string, cuts: seq<nat>)
    requires forall i :: 0 <= i < |cuts| ==> cuts[i] <= |answer|
    ensures Torn(answer, cuts) == [] <==> forall i :: 0 <= i < |cuts| ==> cuts[i] == 0
  {
    if cuts != [] {
      var n := |cuts| - 1;
      TornEmptyIff(answer, cuts[..n]);
      assert forall i :: 0 <= i < n ==> cuts[..n][i] == cuts[i];
      assert Torn(answer, cuts) == Torn(answer, cuts[..n]) + answer[..cuts[n]];
    }
  }

  /**
   The keys up to a refused one are answered properly exactly when no refused attempt had
   queued anything.
   */
  lemma WholeAnswersIff(answers: seq<string>, at: nat, cuts: seq<nat>)
    requires at < |answers| && cuts != [] && forall i :: 0 <= i < |cuts| ==> cuts[i] <= |answers[at]|
    ensures Sent(answers, at, cuts) == Join(answers[..at + 1]) <==> forall i :: 0 <= i < |cuts| ==> cuts[i] == 0
  {
    TornEmptyIff(answers[at], cuts);
    assert answers[..at + 1][..at] == answers[..at];
    var a, t, z := Join(answers[..at]), Torn(answers[at], cuts), answers[at];
    assert Join(answers[..at + 1]) == a + z;
    if t == [] {
      assert a + t + z == a + z;
    } else {
      assert |a + t + z| > |a + z|;
    }
  }

  lemma TornSnoc(answer: string, cuts: seq<nat>, n: nat)
    requires n <= |answer|
    ensures Torn(answer, cuts + [n]) == Torn(answer, cuts) + answer[..n]
  {
    assert (cuts + [n])[..|cuts|] == cuts;
  }

  lemma {:induction false} TornCons(answer: string, n: nat, cuts: seq<nat>)
    requires n <= |answer|
    ensures Torn(answer, [n] + cuts) == answer[..n] + Torn(answer, cuts)
  {
    if cuts == [] {
      assert [n] + cuts == [n] && [n][..0] == [];
    } else {
      var k := |cuts| - 1;
      assert ([n] + cuts)[..k + 1] == [n] + cuts[..k];
      TornCons(answer, n, cuts[..k]);
    }
  }

  ghost predicate AllZero(cuts: seq<nat>) {
    forall i :: 0 <= i < |cuts| ==> cuts[i] == 0
  }

  ghost predicate AtMost(cuts: seq<nat>, n: nat) {
    forall i :: 0 <= i < |cuts| ==> cuts[i] <= n
  }

  /** The further attempts at a key that was refused, until one is not; `luck` has the memory of each. */
  method TryAgain(c: Conn, key: string, tail: string, luck: seq<Memory>) returns (ghost cuts: seq<nat>)
    requires c.Valid() && c.iovused == |c.iov|
    modifies c`iov, c`msgs, c`block, c`iovused, c`msgbytes, c`starved, c`overfull, c`msgsize, c`stream
    ensures c.Valid() && AtMost(cuts, |Answer(key, tail)|)
    ensures c.stream == old(c.stream) + Torn(Answer(key, tail), cuts) + Answer(key, tail)
    ensures !c.udp && Mixed !in luck ==> AllZero(cuts)
  {
    ghost var stream, answer := c.stream, Answer(key, tail);
    cuts := [];
    var ok, t := false, 0;
    assert stream + [] == stream && answer[..|answer|] == answer;
    while !ok
      invariant c.Valid() && t <= |luck| && (!ok ==> c.iovused == |c.iov|) && AtMost(cuts, |answer|)
      invariant c.stream == stream + Torn(answer, cuts) + if ok then answer else []
      invariant !c.udp && Mixed !in luck ==> AllZero(cuts)
      decreases |luck| - t, !ok
    {
      ghost var n;
      ok, n := AddAnswer(c, key, tail, if t < |luck| then luck[t] else Granted);
      if !ok {
        TornSnoc(answer, cuts, n);
        cuts := cuts + [n];
        t := t + 1;
      }
    }
  }

  /**
   A key that is found, with all attempts it takes. Over TCP, when memory is granted or refused
   to an attempt as a whole, only the first one can leave anything behind, and it does exactly
   if a fragment was to spare.
   */
  method AnswerKey(c: Conn, key: string, tail: string, memory: Memory, luck: seq<Memory>)
    returns (refused: bool, ghost cuts: seq<nat>)
    requires c.Valid()
    modifies c`iov, c`msgs, c`block, c`iovused, c`msgbytes, c`starved, c`overfull, c`msgsize, c`stream
    ensures c.Valid() && AtMost(cuts, |Answer(key, tail)|) && (refused <==> cuts != [])
    ensures c.stream == old(c.stream) + Torn(Answer(key, tail), cuts) + Answer(key, tail)
    ensures refused && !c.udp && memory != Mixed && Mixed !in luck ==>
              AllZero(cuts[1..]) && (cuts[0] == 0 <==> old(c.iovused == |c.iov|))
    ensures memory == Refused && old(|c.iov| - c.iovused) < 3 ==> refused
  {
    ghost var stream, answer := c.stream, Answer(key, tail);
    ghost var cut;
    var ok;
    ok, cut := AddAnswer(c, key, tail, memory);
    refused, cuts := !ok, [];
    assert stream + [] == stream && answer[..|answer|] == answer;
    if refused {
      ghost var more := TryAgain(c, key, tail, luck);
      TornCons(answer, cut, more);
      cuts := [cut] + more;
      assert cuts[1..] == more && (stream + answer[..cut]) + Torn(answer, more) == stream + Torn(answer, cuts);
    }
  }

  /** The loop over the keys of a line; the first refused attempt hides the keys behind its own. */
  method AnswerKeys(c: Conn, keys: seq<string>, found: map<string, string>, luck: seq<Memory>)
    returns (ghost at: nat, ghost cuts: seq<nat>, ghost spare: bool)
    requires c.Valid()
    modifies c`iov, c`msgs, c`block, c`iovused, c`msgbytes, c`starved, c`overfull, c`msgsize, c`stream
    ensures c.Valid() && c.stream == old(c.stream) + Sent(Answers(keys, found), at, cuts)
    ensures cuts != [] ==> at < |keys| && AtMost(cuts, |Answers(keys, found)[at]|)
    ensures cuts != [] && !c.udp && Mixed !in luck ==> AllZero(cuts[1..]) && (cuts[0] == 0 <==> !spare)
    ensures keys != [] && keys[0] in found && luck != [] && luck[0] == Refused && old(|c.iov| - c.iovused) < 3 ==>
              cuts != [] && at == 0 && spare == old(c.iovused < |c.iov|)
  {
    ghost var stream, answers := c.stream, Answers(keys, found);
    at, cuts, spare := 0, [], false;
    var i, t := 0, 0;
    assert stream + [] == stream;
    while i < |keys|
      invariant 0 <= i <= |keys| && t <= |luck| && cuts == []
      invariant c.Valid() && c.stream == stream + Join(answers[..i])
      invariant i > 0 && keys[0] in found && luck != [] && luck[0] == Refused ==> old(|c.iov| - c.iovused) >= 3
      invariant i == 0 ==> t == 0 && c.iov == old(c.iov) && c.iovused == old(c.iovused)
    {
      if keys[i] in found {
        spare := c.iovused < |c.iov|;
        var memory := if t < |luck| then luck[t] else Granted;
        t := if t < |luck| then t + 1 else t;
        var refused;
        refused, cuts := AnswerKey(c, keys[i], found[keys[i]], memory, luck[t..]);
        if refused {
          at := i;
          Associates(stream, Join(answers[..i]), Torn(answers[i], cuts));
          Associates(stream, Join(answers[..i]) + Torn(answers[i], cuts), answers[i]);
          return;
        }
      }
      JoinNext(stream, answers, i);
      i := i + 1;
    }
    assert answers[..i] == answers;
  }

  lemma JoinNext(stream: string, answers: seq<string>, i: nat)
    requires i < |answers|
    ensures (stream + Join(answers[..i])) + answers[i] == stream + Join(answers[..i + 1])
    ensures (stream + Join(answers[..i])) + Torn(answers[i], []) + answers[i] == stream + Join(answers[..i + 1])
    ensures answers[i] == [] ==> stream + Join(answers[..i]) == stream + Join(answers[..i + 1])
  {
    assert answers[..i + 1][..i] == answers[..i];
    assert Join(answers[..i + 1]) == Join(answers[..i]) + answers[i];
    assert (stream + Join(answers[..i])) + [] == stream + Join(answers[..i]);
  }

  /** A TCP response with nothing in it but empty fragments, and room for one more. */
  method OneSpare() returns (c: Conn)
    ensures fresh(c) && c.Valid() && !c.udp && c.iovused + 1 == |c.iov| && c.stream == []
  {
    c := new Conn(false);
    var ok := c.AddMsghdr(false, Granted);
    while c.iovused + 1 < |c.iov|
      invariant c.Valid() && fresh(c) && !c.udp && c.iovused + 1 <= |c.iov| == IOV_LIST_INITIAL && c.stream == []
    {
      ghost var taken, q := 0, c.Counted();
      ok, taken := c.AddIov("", [], Granted);
      EmptyTurn(q);
    }
  }

  /** One key, with a single fragment to spare and no memory for more at first: the answer is torn. */
  method TornGet() returns (c: Conn)
    ensures fresh(c) && c.Valid() && |c.stream| > |Answer("b", " 0 1\r\nx\r\n")|
  {
    c := OneSpare();
    ghost var found := map["b" := " 0 1\r\nx\r\n"];
    ghost var answers := Answers(["b"], found);
    ghost var at, cuts, spare := AnswerKeys(c, ["b"], map["b" := " 0 1\r\nx\r\n"], [Refused]);
    TornEmptyIff(answers[0], cuts);
    assert answers[..0] == [];
  }
}
