/**
 Splitting a command line (memcached.c): tokenize_command cuts a batch of tokens in place and
 leaves a terminal token that says where to go on; process_get_command calls it again and
 again. Together the batches are the line's fields.
 */
module Tokenizer {
  import opened Common

  const MAX_TOKENS: nat := 8
  const KEY_MAX_LENGTH: nat := 250

  /** A pointer into the command buffer and a length. */
  datatype Token = Token(value: int, length: nat)

  // ------------------------------------------------- the fields of a line

  /** The run of non-spaces at the start. */
  function FieldLen(s: string): (n: nat)
    ensures n <= |s|
  {
    if s == [] || s[0] == ' ' then 0 else 1 + FieldLen(s[1..])
  }

  /** The non-empty space-separated fields. */
  function Fields(s: string): seq<string>
    decreases |s|
  {
    if s == [] then []
    else if s[0] == ' ' then Fields(s[1..])
    else [s[..FieldLen(s)]] + Fields(s[FieldLen(s)..])
  }

  ghost predicate NoSpace(s: string) {
    forall i :: 0 <= i < |s| ==> s[i] != ' '
  }

  lemma {:induction false} FieldLenIs(a: string, b: string)
    requires NoSpace(a) && (b == [] || b[0] == ' ')
    ensures FieldLen(a + b) == |a|
    decreases |a|
  {
    if a == [] {
      assert a + b == b;
    } else {
      assert (a + b)[1..] == a[1..] + b;
      FieldLenIs(a[1..], b);
    }
  }

  /** A field followed by a space, or by the end of the line. */
  lemma FieldsCut(s: string, n: nat)
    requires 0 < n <= |s| && NoSpace(s[..n]) && (n < |s| ==> s[n] == ' ')
    ensures Fields(s) == [s[..n]] + Fields(if n < |s| then s[n + 1..] else [])
  {
    assert s == s[..n] + s[n..];
    FieldLenIs(s[..n], s[n..]);
    assert s[0] == s[..n][0];
    if n < |s| {
      assert s[n..][1..] == s[n + 1..];
    }
  }

  // ------------------------------------------------- the command buffer

  /** A NUL-terminated string. */
  ghost predicate Terminated(buf: seq<char>, start: nat, end: nat) {
    start <= end < |buf| && buf[end] == '\0' && forall i :: start <= i < end ==> buf[i] != '\0'
  }

  /** The text of a token. */
  function Text(buf: seq<char>, t: Token): string {
    if 0 <= t.value && t.value + t.length <= |buf| then buf[t.value..t.value + t.length] else []
  }

  function Texts(buf: seq<char>, ts: seq<Token>): seq<string> {
    if ts == [] then [] else Texts(buf, ts[..|ts| - 1]) + [Text(buf, ts[|ts| - 1])]
  }

  /** A token in the line before `e`: not empty and without a space. */
  ghost predicate TokenOk(buf: seq<char>, t: Token, start: nat, e: nat) {
    && start <= t.value && t.value + t.length <= e <= |buf| && t.length > 0
    && forall j :: t.value <= j < t.value + t.length ==> buf[j] != ' '
  }

  ghost predicate TokensOk(buf: seq<char>, ts: seq<Token>, start: nat, e: nat) {
    forall i {:trigger TokenOk(buf, ts[i], start, e)} :: 0 <= i < |ts| ==> TokenOk(buf, ts[i], start, e)
  }

  /** Every token has a NUL behind it. */
  ghost predicate Closed(buf: seq<char>, ts: seq<Token>) {
    forall i :: 0 <= i < |ts| ==>
      0 <= ts[i].value && ts[i].value + ts[i].length < |buf| && buf[ts[i].value + ts[i].length] == '\0'
  }

  /** Nothing but spaces was overwritten. */
  ghost predicate OnlySpacesCut(orig: seq<char>, now: seq<char>) {
    |now| == |orig| && forall j :: 0 <= j < |orig| ==> now[j] == orig[j] || orig[j] == ' '
  }

  lemma {:induction false} TextsFrame(orig: seq<char>, now: seq<char>, ts: seq<Token>, start: nat, e: nat)
    requires TokensOk(orig, ts, start, e) && OnlySpacesCut(orig, now)
    ensures Texts(now, ts) == Texts(orig, ts)
  {
    if ts != [] {
      var n := |ts| - 1;
      assert TokenOk(orig, ts[n], start, e);
      forall i | 0 <= i < n
        ensures TokenOk(orig, ts[..n][i], start, e)
      {
        assert TokenOk(orig, ts[i], start, e);
      }
      TextsFrame(orig, now, ts[..n], start, e);
      assert Text(now, ts[n]) == Text(orig, ts[n]);
    }
  }

  lemma TokensLater(buf: seq<char>, ts: seq<Token>, start: nat, e: nat, e': nat)
    requires TokensOk(buf, ts, start, e) && e <= e' <= |buf|
    ensures TokensOk(buf, ts, start, e')
  {
    forall i | 0 <= i < |ts|
      ensures TokenOk(buf, ts[i], start, e')
    {
      assert TokenOk(buf, ts[i], start, e);
    }
  }

  // ------------------------------------------------- the scan

  /** What the tokens so far say, and what is still to be said from `s` on, is the line. */
  ghost predicate Split(orig: seq<char>, ts: seq<Token>, start: nat, s: nat, end: nat) {
    && start <= s <= end <= |orig| && TokensOk(orig, ts, start, s)
    && Texts(orig, ts) + Fields(orig[s..end]) == Fields(orig[start..end])
  }

  lemma SkipSpace(orig: seq<char>, ts: seq<Token>, start: nat, s: nat, end: nat)
    requires Split(orig, ts, start, s, end) && s < end && orig[s] == ' '
    ensures Split(orig, ts, start, s + 1, end)
  {
    assert orig[s..end][1..] == orig[s + 1..end];
    TokensLater(orig, ts, start, s, s + 1);
  }

  /** The field from s to e becomes a token; scanning goes on behind the space, or stops at the end. */
  lemma CutField(orig: seq<char>, ts: seq<Token>, start: nat, s: nat, e: nat, end: nat)
    requires Split(orig, ts, start, s, end) && s < e <= end && (forall j :: s <= j < e ==> orig[j] != ' ')
             && (e < end ==> orig[e] == ' ')
    ensures Split(orig, ts + [Token(s, e - s)], start, After(e, end), end)
  {
    CutTexts(orig, ts, s, e, end);
    CutTokens(orig, ts, start, s, e, After(e, end));
  }

  function After(e: nat, end: nat): nat {
    if e < end then e + 1 else end
  }

  lemma CutTexts(orig: seq<char>, ts: seq<Token>, s: nat, e: nat, end: nat)
    requires s < e <= end <= |orig| && (forall j :: s <= j < e ==> orig[j] != ' ') && (e < end ==> orig[e] == ' ')
    ensures Texts(orig, ts + [Token(s, e - s)]) + Fields(orig[After(e, end)..end]) ==
            Texts(orig, ts) + Fields(orig[s..end])
  {
    TextsSnoc(orig, ts, Token(s, e - s));
    FieldAt(orig, s, e, end);
    Associates(Texts(orig, ts), [orig[s..e]], Fields(orig[After(e, end)..end]));
  }

  lemma TextsSnoc(buf: seq<char>, ts: seq<Token>, t: Token)
    ensures Texts(buf, ts + [t]) == Texts(buf, ts) + [Text(buf, t)]
  {
    assert (ts + [t])[..|ts|] == ts;
  }

  lemma FieldAt(orig: seq<char>, s: nat, e: nat, end: nat)
    requires s < e <= end <= |orig| && (forall j :: s <= j < e ==> orig[j] != ' ') && (e < end ==> orig[e] == ' ')
    ensures Fields(orig[s..end]) == [orig[s..e]] + Fields(orig[After(e, end)..end])
  {
    var line := orig[s..end];
    assert line[..e - s] == orig[s..e];
    FieldsCut(line, e - s);
    assert (if e < end then line[e - s + 1..] else []) == orig[After(e, end)..end];
  }

  lemma CutTokens(orig: seq<char>, ts: seq<Token>, start: nat, s: nat, e: nat, s': nat)
    requires TokensOk(orig, ts, start, s) && start <= s < e <= s' <= |orig|
             && (forall j :: s <= j < e ==> orig[j] != ' ')
    ensures TokensOk(orig, ts + [Token(s, e - s)], start, s')
  {
    var ts' := ts + [Token(s, e - s)];
    forall i | 0 <= i < |ts'|
      ensures TokenOk(orig, ts'[i], start, s')
    {
      if i < |ts| {
        assert TokenOk(orig, ts[i], start, s);
      }
    }
  }

  method StrLen(buf: array<char>, start: nat, ghost end: nat) returns (len: nat)
    requires Terminated(buf[..], start, end)
    ensures len == end - start
  {
    len := 0;
    while buf[start + len] != '\0'
      invariant start + len <= end
      decreases end - len
    {
      len := len + 1;
    }
  }

  method PutToken(tokens: array<Token>, n: nat, t: Token)
    requires n < tokens.Length
    modifies tokens
    ensures tokens[..n + 1] == old(tokens[..n]) + [t]
  {
    tokens[n] := t;
  }

  /**
   A batch of tokens, the terminal one last: the tokens are the fields of the line up to where
   the terminal token points, or all of them if it points nowhere; each ends in a NUL, and
   from there on the line is untouched.
   */
  ghost predicate Batch(orig: seq<char>, now: seq<char>, toks: seq<Token>, start: nat, end: nat) {
    && toks != [] && toks[|toks| - 1].length == 0 && OnlySpacesCut(orig, now) && end < |orig|
    && Closed(now, toks[..|toks| - 1])
    && var to := toks[|toks| - 1].value;
       && Split(orig, toks[..|toks| - 1], start, if to < 0 then end else to, end)
       && (to != NIL ==> start < to < end && forall j :: to <= j < |now| ==> now[j] == orig[j])
  }

  /** The state of the scan: tokens up to s, a field begun from s to e, the line untouched from e on. */
  ghost predicate Scanning(orig: seq<char>, now: seq<char>, ts: seq<Token>, start: nat, s: nat, e: nat, end: nat) {
    && Split(orig, ts, start, s, end) && s <= e <= end && (forall j :: s <= j < e ==> orig[j] != ' ')
    && OnlySpacesCut(orig, now) && Closed(now, ts) && forall j :: e <= j < |now| ==> now[j] == orig[j]
  }

  lemma ScanStarts(orig: seq<char>, start: nat, end: nat)
    requires Terminated(orig, start, end)
    ensures Scanning(orig, orig, [], start, start, start, end)
  {
  }

  lemma ScanGoesOn(orig: seq<char>, now: seq<char>, ts: seq<Token>, start: nat, s: nat, e: nat, end: nat)
    requires Scanning(orig, now, ts, start, s, e, end) && e < end && now[e] != ' '
    ensures Scanning(orig, now, ts, start, s, e + 1, end)
  {
  }

  /** At a space: a field that was begun is now a token. */
  method EndField(buf: array<char>, tokens: array<Token>, n: nat, s: nat, e: nat, ghost orig: seq<char>,
                  ghost start: nat, ghost end: nat)
    returns (n': nat)
    requires n < tokens.Length && Scanning(orig, buf[..], tokens[..n], start, s, e, end) && e < end && buf[e] == ' '
    modifies buf, tokens
    ensures n' == n + (if s == e then 0 else 1) && n' <= tokens.Length
    ensures Scanning(orig, buf[..], tokens[..n'], start, e + 1, e + 1, end)
  {
    n' := n;
    if s != e {
      CutField(orig, tokens[..n], start, s, e, end);
      PutToken(tokens, n, Token(s, e - s));
      n' := n + 1;
      buf[e] := '\0';
    } else {
      SkipSpace(orig, tokens[..n], start, s, end);
    }
  }

  /** One character of the line. */
  method ScanOne(buf: array<char>, tokens: array<Token>, n: nat, s: nat, e: nat, ghost orig: seq<char>,
                 ghost start: nat, ghost end: nat)
    returns (n': nat, s': nat)
    requires n < tokens.Length && Scanning(orig, buf[..], tokens[..n], start, s, e, end) && e < end
    modifies buf, tokens
    ensures n <= n' <= n + 1 && (n' > n ==> s' == e + 1)
    ensures Scanning(orig, buf[..], tokens[..n'], start, s', e + 1, end)
  {
    if buf[e] == ' ' {
      n' := EndField(buf, tokens, n, s, e, orig, start, end);
      s' := e + 1;
    } else {
      ScanGoesOn(orig, buf[..], tokens[..n], start, s, e, end);
      n', s' := n, s;
    }
  }

  /** The loop of tokenize_command. */
  method Scan(buf: array<char>, start: nat, tokens: array<Token>, maxTokens: nat, ghost end: nat)
    returns (n: nat, s: nat, e: nat)
    requires Terminated(buf[..], start, end) && maxTokens > 1 && tokens.Length >= maxTokens
    modifies buf, tokens
    ensures n <= maxTokens - 1 && Scanning(old(buf[..]), buf[..], tokens[..n], start, s, e, end)
    ensures if e == end then s != e ==> n < maxTokens - 1 else s == e > start && n == maxTokens - 1
  {
    ghost var orig := buf[..];
    var len := StrLen(buf, start, end);
    var i := 0;
    s, e, n := start, start, 0;
    ScanStarts(orig, start, end);
    while i < len
      invariant e == start + i <= end && n < maxTokens - 1
      invariant Scanning(orig, buf[..], tokens[..n], start, s, e, end)
    {
      n, s := ScanOne(buf, tokens, n, s, e, orig, start, end);
      e := e + 1;
      if n == maxTokens - 1 {
        break;
      }
      i := i + 1;
    }
  }

  /** The field that ends with the line. */
  lemma LastField(orig: seq<char>, now: seq<char>, ts: seq<Token>, start: nat, s: nat, end: nat)
    requires Scanning(orig, now, ts, start, s, end, end) && s < end < |orig| && orig[end] == '\0'
    ensures Scanning(orig, now, ts + [Token(s, end - s)], start, end, end, end)
  {
    CutField(orig, ts, start, s, end, end);
  }

  /** The terminal token makes a batch of the tokens cut so far. */
  lemma BatchEnds(orig: seq<char>, now: seq<char>, ts: seq<Token>, start: nat, s: nat, end: nat, to: int)
    requires Scanning(orig, now, ts, start, s, s, end) && end < |orig|
    requires if s == end then to == NIL else to == s > start
    ensures Batch(orig, now, ts + [Token(to, 0)], start, end)
  {
    var toks := ts + [Token(to, 0)];
    assert toks[..|toks| - 1] == ts;
  }

  /** tokenize_command on the string from `start` to its NUL at `end`. */
  method TokenizeCommand(buf: array<char>, start: nat, tokens: array<Token>, maxTokens: nat, ghost end: nat)
    returns (ntokens: nat)
    requires Terminated(buf[..], start, end) && maxTokens > 1 && tokens.Length >= maxTokens
    modifies buf, tokens
    ensures 1 <= ntokens <= maxTokens && Batch(old(buf[..]), buf[..], tokens[..ntokens], start, end)
    ensures tokens[ntokens - 1].value != NIL ==> ntokens == maxTokens
  {
    ghost var orig := buf[..];
    var s, e;
    ntokens, s, e := Scan(buf, start, tokens, maxTokens, end);
    assert buf[e] == '\0' <==> e == end;
    if s != e {
      LastField(orig, buf[..], tokens[..ntokens], start, s, end);
      PutToken(tokens, ntokens, Token(s, e - s));
      ntokens := ntokens + 1;
    }
    var to := if buf[e] == '\0' then NIL else e;
    BatchEnds(orig, buf[..], tokens[..ntokens], start, e, end, to);
    PutToken(tokens, ntokens, Token(to, 0));
    ntokens := ntokens + 1;
  }

  // ------------------------------------------------- the key loop of get

  ghost predicate AllShort(keys: seq<string>) {
    forall i :: 0 <= i < |keys| ==> |keys[i]| <= KEY_MAX_LENGTH
  }

  /** The keys looked up: all of them, or those before the first that is too long. */
  ghost predicate Outcome(args: seq<string>, keys: seq<string>, bad: bool) {
    && keys <= args && AllShort(keys)
    && if bad then |keys| < |args| && |args[|keys|]| > KEY_MAX_LENGTH else keys == args
  }

  lemma {:induction false} TextsAt(buf: seq<char>, ts: seq<Token>)
    ensures |Texts(buf, ts)| == |ts| && forall i :: 0 <= i < |ts| ==> Texts(buf, ts)[i] == Text(buf, ts[i])
  {
    if ts != [] {
      TextsAt(buf, ts[..|ts| - 1]);
    }
  }

  /** A token that holds a key: a string of its own, without a space. */
  ghost predicate KeyToken(buf: seq<char>, t: Token) {
    t.length > 0 && 0 <= t.value && Terminated(buf, t.value, t.value + t.length) && NoSpace(Text(buf, t))
  }

  /** The tokens of a batch from the k-th on, and the fields behind it, are the fields `rest`. */
  ghost predicate Ready(buf: seq<char>, toks: seq<Token>, k: nat, end: nat, rest: seq<string>) {
    && k < |toks| && toks[|toks| - 1].length == 0
    && (forall i {:trigger KeyToken(buf, toks[i])} :: k <= i < |toks| - 1 ==> KeyToken(buf, toks[i]))
    && var to := toks[|toks| - 1].value;
       && (to != NIL ==> 0 <= to && Terminated(buf, to, end))
       && rest == Texts(buf, toks[k..|toks| - 1]) +
          Fields(if to < 0 || to > end || end > |buf| then [] else buf[to..end])
  }

  lemma TokenIsKey(orig: seq<char>, now: seq<char>, t: Token, start: nat, e: nat, end: nat)
    requires Terminated(orig, start, end) && OnlySpacesCut(orig, now) && TokenOk(orig, t, start, e) && e <= end
    requires t.value + t.length < |now| && now[t.value + t.length] == '\0'
    ensures KeyToken(now, t)
  {
  }

  lemma BatchReady(orig: seq<char>, now: seq<char>, toks: seq<Token>, start: nat, end: nat)
    requires Batch(orig, now, toks, start, end) && Terminated(orig, start, end)
    ensures Ready(now, toks, 0, end, Fields(orig[start..end]))
  {
    var n := |toks| - 1;
    var to, body := toks[n].value, toks[..n];
    TextsFrame(orig, now, body, start, if to < 0 then end else to);
    assert toks[0..n] == body;
    forall i | 0 <= i < n
      ensures KeyToken(now, toks[i])
    {
      var e := if to < 0 then end else to;
      assert TokenOk(orig, body[i], start, e);
      TokenIsKey(orig, now, body[i], start, e, end);
    }
    if to != NIL {
      assert now[to..end] == orig[to..end];
    } else {
      assert orig[end..end] == [];
    }
  }

  /** A key of the batch is refused memory for its answer: the loop stops there. */
  ghost predicate Refused(args: seq<string>, keys: seq<string>) {
    keys < args && AllShort(keys) && |args[|keys|]| <= KEY_MAX_LENGTH
  }

  /**
   The inner loop's end: after all keys, at the first that is too long, or at key number `at`
   if that one is refused memory.
   */
  ghost predicate Visited(args: seq<string>, keys: seq<string>, bad: bool, at: int, refuses: bool) {
    && (refuses && 0 <= at ==> |keys| <= at)
    && if !bad && |keys| < |args| then refuses && at == |keys| && Refused(args, keys) else Outcome(args, keys, bad)
  }

  method VisitBatch(buf: array<char>, tokens: array<Token>, first: nat, ghost n: nat, at: int, refuses: bool)
    returns (keys: seq<string>, bad: bool, k: nat)
    requires first < n <= tokens.Length && tokens[n - 1].length == 0
    requires forall i {:trigger KeyToken(buf[..], tokens[i])} :: first <= i < n - 1 ==> KeyToken(buf[..], tokens[i])
    ensures k == first + |keys| < n && (!bad ==> (tokens[k].length == 0 <==> k == n - 1))
    ensures Visited(Texts(buf[..], tokens[first..n - 1]), keys, bad, at, refuses)
  {
    keys, bad, k := [], false, first;
    ghost var args := Texts(buf[..], tokens[first..n - 1]);
    TextsAt(buf[..], tokens[first..n - 1]);
    while tokens[k].length != 0
      invariant first <= k < n && |keys| == k - first && keys <= args && (refuses && 0 <= at ==> |keys| <= at)
      invariant forall i :: 0 <= i < |keys| ==> |keys[i]| <= KEY_MAX_LENGTH
      decreases n - k
    {
      assert tokens[first..n - 1][k - first] == tokens[k] && args[k - first] == Text(buf[..], tokens[k]);
      assert KeyToken(buf[..], tokens[k]);
      if tokens[k].length > KEY_MAX_LENGTH {
        bad := true;
        return;
      }
      if refuses && at == k - first {
        return;
      }
      keys := keys + [buf[tokens[k].value..tokens[k].value + tokens[k].length]];
      k := k + 1;
    }
    assert k < n - 1 ==> KeyToken(buf[..], tokens[k]);
  }

  /** Cutting a key token again gives the key alone: its NUL hides the rest of the line. */
  lemma KeyAgain(buf: seq<char>, t: Token)
    requires KeyToken(buf, t)
    ensures Fields(buf[t.value..t.value + t.length]) == [Text(buf, t)]
  {
    var key := buf[t.value..t.value + t.length];
    assert key[..t.length] == key;
    FieldsCut(key, t.length);
  }

  /** The inner loop has looked up `batch` of the keys `rest`; `behind` are those that the next batch can still see. */
  ghost predicate Stopped(rest: seq<string>, batch: seq<string>, bad: bool, at: int, refuses: bool, refused: bool,
                          behind: seq<string>)
  {
    && (refuses && 0 <= at ==> |batch| <= at)
    && if refused then refuses && !bad && at == |batch| && Refused(rest, batch) && behind == [rest[|batch|]]
       else if bad then Outcome(rest, batch, true)
       else rest == batch + behind && AllShort(batch)
  }

  /** What a pointer leads to. */
  ghost predicate Onward(buf: seq<char>, to: int, end: nat, behind: seq<string>) {
    if to == NIL then behind == [] else 0 <= to && Terminated(buf, to, end) && behind == Fields(buf[to..end])
  }

  /** At a refused key the pointer leads to that key alone. */
  lemma KeyOnward(buf: seq<char>, toks: seq<Token>, k: nat, end: nat, rest: seq<string>, j: nat)
    requires Ready(buf, toks, k, end, rest) && k + j < |toks| - 1
    ensures KeyToken(buf, toks[k + j]) && j < |rest|
    ensures Onward(buf, toks[k + j].value, toks[k + j].value + toks[k + j].length, [rest[j]])
  {
    RestAt(buf, toks, k, end, rest, j);
    KeyAgain(buf, toks[k + j]);
  }

  lemma RefusedHere(buf: seq<char>, toks: seq<Token>, k: nat, end: nat, rest: seq<string>, batch: seq<string>,
                    at: int, refuses: bool)
    requires Ready(buf, toks, k, end, rest) && k + |batch| < |toks| - 1
    requires Visited(Texts(buf, toks[k..|toks| - 1]), batch, false, at, refuses)
    ensures |batch| < |rest| && Stopped(rest, batch, false, at, refuses, true, [rest[|batch|]])
  {
    RestAt(buf, toks, k, end, rest, |batch|);
    RefusedStops(Texts(buf, toks[k..|toks| - 1]), rest, batch, at, refuses);
  }

  lemma RefusedStops(args: seq<string>, rest: seq<string>, batch: seq<string>, at: int, refuses: bool)
    requires Visited(args, batch, false, at, refuses) && |batch| < |args| && args <= rest
    ensures Stopped(rest, batch, false, at, refuses, true, [rest[|batch|]])
  {
    assert args[|batch|] == rest[|batch|];
  }

  lemma RestAt(buf: seq<char>, toks: seq<Token>, k: nat, end: nat, rest: seq<string>, j: nat)
    requires Ready(buf, toks, k, end, rest) && k + j < |toks| - 1
    ensures KeyToken(buf, toks[k + j]) && j < |rest| && rest[j] == Text(buf, toks[k + j])
    ensures var args := Texts(buf, toks[k..|toks| - 1]);
            |args| == |toks| - 1 - k && args <= rest && args[j] == rest[j]
  {
    TextsAt(buf, toks[k..|toks| - 1]);
    assert KeyToken(buf, toks[k + j]) && toks[k..|toks| - 1][j] == toks[k + j];
  }

  /** At the terminal token it leads to the rest of the line. */
  lemma TerminalOnward(buf: seq<char>, toks: seq<Token>, k: nat, end: nat, rest: seq<string>, batch: seq<string>,
                       at: int, refuses: bool)
    returns (behind: seq<string>)
    requires Ready(buf, toks, k, end, rest) && k + |batch| == |toks| - 1
    requires Visited(Texts(buf, toks[k..|toks| - 1]), batch, false, at, refuses)
    ensures Onward(buf, toks[|toks| - 1].value, end, behind) && Stopped(rest, batch, false, at, refuses, false, behind)
  {
    TextsAt(buf, toks[k..|toks| - 1]);
    var to := toks[|toks| - 1].value;
    behind := if to == NIL then [] else Fields(buf[to..end]);
  }

  lemma BadStops(buf: seq<char>, toks: seq<Token>, k: nat, end: nat, rest: seq<string>, batch: seq<string>, at: int,
                 refuses: bool)
    requires Ready(buf, toks, k, end, rest) && Visited(Texts(buf, toks[k..|toks| - 1]), batch, true, at, refuses)
    ensures Stopped(rest, batch, true, at, refuses, false, [])
  {
  }

  lemma VisitEnds(buf: seq<char>, toks: seq<Token>, k: nat, end: nat, rest: seq<string>, batch: seq<string>, bad: bool,
                  at: int, refuses: bool, refused: bool)
    returns (end': nat, behind: seq<string>)
    requires Ready(buf, toks, k, end, rest) && k + |batch| < |toks| && refused == (!bad && k + |batch| < |toks| - 1)
    requires Visited(Texts(buf, toks[k..|toks| - 1]), batch, bad, at, refuses)
    ensures Stopped(rest, batch, bad, at, refuses, refused, behind) && (!refused ==> end' == end)
    ensures !bad ==> Onward(buf, toks[k + |batch|].value, end', behind)
  {
    end', behind := end, [];
    if bad {
      BadStops(buf, toks, k, end, rest, batch, at, refuses);
    } else if refused {
      KeyOnward(buf, toks, k, end, rest, |batch|);
      RefusedHere(buf, toks, k, end, rest, batch, at, refuses);
      end', behind := toks[k + |batch|].value + toks[k + |batch|].length, [rest[|batch|]];
    } else {
      behind := TerminalOnward(buf, toks, k, end, rest, batch, at, refuses);
    }
  }

  /** The inner loop on a batch, and the pointer of the token it ends at. */
  method VisitReady(buf: array<char>, tokens: array<Token>, k: nat, n: nat, at: int, refuses: bool, ghost end: nat,
                    ghost rest: seq<string>)
    returns (batch: seq<string>, bad: bool, refused: bool, to: int, ghost end': nat, ghost behind: seq<string>)
    requires n <= tokens.Length && Ready(buf[..], tokens[..n], k, end, rest)
    ensures Stopped(rest, batch, bad, at, refuses, refused, behind) && (!bad ==> Onward(buf[..], to, end', behind))
    ensures !refused && !bad ==> to == tokens[n - 1].value && end' == end
  {
    assert tokens[..n][k..n - 1] == tokens[k..n - 1];
    var j;
    batch, bad, j := VisitBatch(buf, tokens, k, n, at, refuses);
    to, refused := tokens[j].value, !bad && tokens[j].length != 0;
    end', behind := VisitEnds(buf[..], tokens[..n], k, end, rest, batch, bad, at, refuses, refused);
  }

  /** How much of the line is still uncut. */
  function Left(to: int, end: nat): nat {
    if to == NIL || to > end then 0 else end - to + 1
  }

  lemma NothingReady(buf: seq<char>, toks: seq<Token>, end: nat, rest: seq<string>)
    requires Ready(buf, toks, 0, end, rest) && toks[0].value == NIL
    ensures rest == []
  {
    assert |toks| > 1 ==> KeyToken(buf, toks[0]);
  }

  /** The next batch if the pointer leads on, and whether there is anything in it. */
  method NextBatch(buf: array<char>, tokens: array<Token>, to: int, n: nat, ghost end: nat, ghost behind: seq<string>)
    returns (n': nat, more: bool)
    requires 1 <= n <= MAX_TOKENS <= tokens.Length && Onward(buf[..], to, end, behind)
    modifies buf, tokens
    ensures 1 <= n' <= MAX_TOKENS && (if more then Ready(buf[..], tokens[..n'], 0, end, behind) else behind == [])
    ensures if to == NIL then !more && n' == n && tokens[..] == old(tokens[..])
            else Left(tokens[n' - 1].value, end) < Left(to, end)
  {
    if to == NIL {
      return n, false;
    }
    ghost var orig := buf[..];
    n' := TokenizeCommand(buf, to, tokens, MAX_TOKENS, end);
    BatchReady(orig, buf[..], tokens[..n'], to, end);
    more := tokens[0].value != NIL;
    if !more {
      NothingReady(buf[..], tokens[..n'], end, behind);
    }
  }

  /**
   The keys that are visited to the end when memory for the answer of key number `at` is refused
   `times` times: its NUL hides all keys behind it from the next batch.
   */
  function Cut(args: seq<string>, at: nat, times: nat): seq<string> {
    if times > 0 && at < |args| then args[..at + 1] else args
  }

  /** Every key of a line of short keys is visited exactly when no key but the last is refused. */
  lemma AllVisitedIff(args: seq<string>, at: nat, times: nat, keys: seq<string>, bad: bool)
    requires AllShort(args) && Outcome(Cut(args, at, times), keys, bad)
    ensures !bad && (keys == args <==> times == 0 || at + 1 >= |args|)
  {
  }

  /** How far the loop is: keys looked up, `rest` to come, `left` refusals to come. */
  ghost predicate Going(args: seq<string>, at: nat, times: nat, keys: seq<string>, rest: seq<string>, left: nat) {
    && left <= times && AllShort(keys) && (left > 0 ==> |keys| <= at)
    && keys + rest == if left < times then Cut(args, at, times) else args
  }

  /** The batch at hand, and the one after it if the pointer leads on. */
  method VisitAndCut(buf: array<char>, tokens: array<Token>, k: nat, n: nat, at: int, refuses: bool, ghost end: nat,
                     ghost rest: seq<string>)
    returns (batch: seq<string>, bad: bool, refused: bool, n': nat, more: bool, ghost end': nat,
             ghost behind: seq<string>)
    requires n <= MAX_TOKENS <= tokens.Length && Ready(buf[..], tokens[..n], k, end, rest)
    modifies buf, tokens
    ensures Stopped(rest, batch, bad, at, refuses, refused, behind) && 1 <= n' <= MAX_TOKENS
    ensures !bad ==> if more then Ready(buf[..], tokens[..n'], 0, end', behind) else behind == []
    ensures !bad && !refused ==> end' == end && Left(tokens[n' - 1].value, end) <= Left(old(tokens[n - 1].value), end)
    ensures !bad && !refused && more ==> Left(tokens[n' - 1].value, end) < Left(old(tokens[n - 1].value), end)
  {
    var to;
    batch, bad, refused, to, end', behind := VisitReady(buf, tokens, k, n, at, refuses, end, rest);
    n', more := n, false;
    if !bad {
      n', more := NextBatch(buf, tokens, to, n, end', behind);
    }
  }

  /** The loop of process_get_command over the batch at hand and those after it. */
  method GetKeys(buf: array<char>, tokens: array<Token>, ntokens: nat, at: nat, times: nat, ghost end: nat,
                 ghost args: seq<string>)
    returns (keys: seq<string>, bad: bool)
    requires 2 <= ntokens <= MAX_TOKENS <= tokens.Length && Ready(buf[..], tokens[..ntokens], 1, end, args)
    modifies buf, tokens
    ensures Outcome(Cut(args, at, times), keys, bad)
  {
    keys, bad := [], false;
    var n, k, more, left := ntokens, 1, true, times;
    ghost var rest, stop := args, end;
    while more
      invariant 1 <= n <= MAX_TOKENS && Going(args, at, times, keys, rest, left)
      invariant if more then Ready(buf[..], tokens[..n], k, stop, rest) else rest == []
      decreases left, Left(tokens[n - 1].value, stop), more
    {
      var batch, refused;
      ghost var behind;
      batch, bad, refused, n, more, stop, behind := VisitAndCut(buf, tokens, k, n, at - |keys|, left > 0, stop, rest);
      GoesOn(args, at, times, keys, rest, left, batch, bad, refused, behind);
      keys := keys + batch;
      if bad {
        return;
      }
      if refused {
        left := left - 1;
      }
      rest, k := behind, 0;
    }
  }

  lemma GoesOn(args: seq<string>, at: nat, times: nat, keys: seq<string>, rest: seq<string>, left: nat,
               batch: seq<string>, bad: bool, refused: bool, behind: seq<string>)
    requires Going(args, at, times, keys, rest, left)
             && Stopped(rest, batch, bad, at - |keys|, left > 0, refused, behind)
    ensures bad ==> Outcome(Cut(args, at, times), keys + batch, true)
    ensures !bad ==> Going(args, at, times, keys + batch, behind, if refused then left - 1 else left)
  {
    var all := keys + rest;
    assert all[..|keys + batch|] == keys + batch;
    if refused {
      assert all[..at + 1] == (keys + batch) + behind;
    } else if bad {
      assert all[|keys + batch|] == rest[|batch|];
    } else {
      Associates(keys, batch, behind);
    }
  }

  /**
   A line that starts with get: process_command's batch, then the keys. All fields behind the
   first are looked up, in order, up to a refused one.
   */
  method ProcessGet(buf: array<char>, tokens: array<Token>, at: nat, times: nat, ghost end: nat)
    returns (ran: bool, keys: seq<string>, bad: bool)
    requires Terminated(buf[..], 0, end) && tokens.Length >= MAX_TOKENS
    modifies buf, tokens
    ensures ran <==> |Fields(old(buf[..end]))| >= 2
    ensures ran ==> Outcome(Cut(Fields(old(buf[..end]))[1..], at, times), keys, bad)
  {
    ghost var orig := buf[..];
    keys, bad := [], false;
    var n := TokenizeCommand(buf, 0, tokens, MAX_TOKENS, end);
    BatchReady(orig, buf[..], tokens[..n], 0, end);
    assert orig[0..end] == old(buf[..end]);
    ran := n >= 3;
    FieldCount(buf[..], tokens[..n], end, Fields(orig[0..end]));
    if ran {
      CommandIsFirst(buf[..], tokens[..n], end, Fields(orig[0..end]));
      keys, bad := GetKeys(buf, tokens, n, at, times, end, Fields(orig[0..end])[1..]);
    }
  }

  lemma FieldAndRest(a: string, rest: string)
    requires a != [] && NoSpace(a)
    ensures Fields(a + " " + rest) == [a] + Fields(rest)
  {
    var line := a + " " + rest;
    assert line[..|a|] == a && line[|a| + 1..] == rest;
    FieldsCut(line, |a|);
  }

  lemma LineOfThree(line: string)
    requires line == "get a b"
    ensures Fields(line) == ["get", "a", "b"]
  {
    assert line == "get" + " " + ("a" + " " + "b");
    FieldAndRest("get", "a" + " " + "b");
    FieldAndRest("a", "b");
    assert "b"[..1] == "b";
    FieldsCut("b", 1);
  }

  lemma FirstKeyOnly(fields: seq<string>, keys: seq<string>, bad: bool)
    requires fields == ["get", "a", "b"] && Outcome(Cut(fields[1..], 0, 1), keys, bad)
    ensures keys == ["a"] && !bad
  {
    assert fields[1..] == ["a", "b"] && ["a", "b"][..1] == ["a"];
    AllVisitedIff(["a"], 0, 0, keys, bad);
  }

  /** A buffer with the line "get a b". */
  method TwoKeys() returns (buf: array<char>)
    ensures fresh(buf) && Terminated(buf[..], 0, 7) && Fields(buf[..7]) == ["get", "a", "b"]
  {
    buf := new char[] ['g', 'e', 't', ' ', 'a', ' ', 'b', '\0'];
    assert buf[..7] == "get a b";
    LineOfThree(buf[..7]);
  }

  /** That line, with the answer to the first key refused once: the second key is never looked up. */
  method GetTwoKeys() returns (keys: seq<string>, bad: bool)
    ensures keys == ["a"] && !bad
  {
    var buf := TwoKeys();
    var tokens := new Token[MAX_TOKENS](_ => Token(NIL, 0));
    ghost var fields := Fields(buf[..7]);
    var ran;
    ran, keys, bad := ProcessGet(buf, tokens, 0, 1, 7);
    FirstKeyOnly(fields, keys, bad);
  }

  lemma FieldCount(buf: seq<char>, toks: seq<Token>, end: nat, fields: seq<string>)
    requires Ready(buf, toks, 0, end, fields) && (toks[|toks| - 1].value != NIL ==> |toks| == MAX_TOKENS)
    ensures |toks| >= 3 <==> |fields| >= 2
  {
    TextsAt(buf, toks[0..|toks| - 1]);
  }

  lemma CommandIsFirst(buf: seq<char>, toks: seq<Token>, end: nat, fields: seq<string>)
    requires Ready(buf, toks, 0, end, fields) && |toks| >= 2
    ensures fields != [] && Ready(buf, toks, 1, end, fields[1..])
  {
    var n := |toks| - 1;
    TextsAt(buf, toks[0..n]);
    TextsAt(buf, toks[1..n]);
    assert Texts(buf, toks[0..n])[1..] == Texts(buf, toks[1..n]);
  }
}
