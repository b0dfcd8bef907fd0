/** The streaming parser for the kernel's list of direct children.

    The list arrives through reads that may split it anywhere.  `Tokens` and
    `Accepted` say what a list means as a whole; `IterDirectChildBatches` parses
    it byte by byte with a bounded buffer and is proved to agree with them for
    every way of splitting the list into reads. */
module DirectChildren {
  import opened Numerals

  type Byte = b: nat | b < 256
  type Token = seq<Byte>

  const MAX_TOKEN_BYTES := 32
  const BATCH_SIZE := 32

  /** One answer of the read call. */
  datatype Read =
    | Data(payload: seq<Byte>)   // an empty payload is end of file
    | Interrupted                // retried
    | ReadFailure                // an I/O error or an exceeded deadline

  datatype Outcome = Complete | ParseError | ReadError

  predicate IsWhite(b: Byte) {
    b == 32 || b == 9 || b == 13 || b == 10 || b == 11 || b == 12
  }

  predicate IsDigit(b: Byte) {
    48 <= b <= 57
  }

  predicate AllDigits(t: Token) {
    forall i | 0 <= i < |t| :: IsDigit(t[i])
  }

  /** The number a string of digits denotes. */
  function Value(t: Token): nat {
    if t == [] then 0
    else Value(t[..|t| - 1]) * 10 + if IsDigit(t[|t| - 1]) then t[|t| - 1] - 48 else 0
  }

  /** A token that names a process. */
  predicate ValidToken(t: Token) {
    0 < |t| <= MAX_TOKEN_BYTES && AllDigits(t) && Value(t) > 0
  }

  /* ---------- What a byte string means ---------- */

  /** The bytes after the last whitespace: a token that is not known to be complete. */
  function Tail(s: seq<Byte>): Token {
    if s == [] || IsWhite(s[|s| - 1]) then []
    else Tail(s[..|s| - 1]) + [s[|s| - 1]]
  }

  /** The tokens that whitespace has completed. */
  function Completed(s: seq<Byte>): seq<Token> {
    if s == [] then []
    else
      var before := s[..|s| - 1];
      if IsWhite(s[|s| - 1]) && Tail(before) != [] then Completed(before) + [Tail(before)]
      else Completed(before)
  }

  /** All tokens of a list that was read to its end. */
  function Tokens(s: seq<Byte>): seq<Token> {
    Completed(s) + if Tail(s) == [] then [] else [Tail(s)]
  }

  /** The processes named by the tokens, each once, in order of first occurrence. */
  function Accepted(toks: seq<Token>): seq<nat> {
    if toks == [] then []
    else
      var before := Accepted(toks[..|toks| - 1]);
      var t := toks[|toks| - 1];
      if ValidToken(t) && Value(t) !in before then before + [Value(t)] else before
  }

  /** Some token is malformed, oversized, zero, or repeats an earlier process. */
  predicate Rejects(toks: seq<Token>) {
    toks != [] &&
    var t := toks[|toks| - 1];
    var before := toks[..|toks| - 1];
    Rejects(before) || !ValidToken(t) || Value(t) in Accepted(before)
  }

  function SetOf<T>(s: seq<T>): set<T> {
    set x | x in s
  }

  function Flatten(batches: seq<seq<nat>>): seq<nat> {
    if batches == [] then [] else Flatten(batches[..|batches| - 1]) + batches[|batches| - 1]
  }

  /* ---------- What the reads deliver ---------- */

  predicate Stops(r: Read) {
    r.ReadFailure? || (r.Data? && r.payload == [])
  }

  /** The bytes delivered before the parser stops reading. */
  function Delivered(answers: seq<Read>): seq<Byte> {
    if answers == [] || Stops(answers[0]) then []
    else (if answers[0].Data? then answers[0].payload else []) + Delivered(answers[1..])
  }

  /** Reading ended in a failure rather than at end of file. */
  predicate Fails(answers: seq<Read>) {
    answers != [] && (answers[0].ReadFailure? || (!Stops(answers[0]) && Fails(answers[1..])))
  }

  lemma {:induction false} DeliveredSplit(answers: seq<Read>, i: nat)
    requires i <= |answers| && forall k | 0 <= k < i :: !Stops(answers[k])
    ensures Delivered(answers) == Delivered(answers[..i]) + Delivered(answers[i..])
    ensures Fails(answers) == Fails(answers[i..])
  {
    if i == 0 {
      assert answers[..0] == [] && answers[0..] == answers;
    } else {
      DeliveredSplit(answers[1..], i - 1);
      assert answers[..i][1..] == answers[1..][..i - 1];
      assert answers[1..][i - 1..] == answers[i..];
    }
  }

  /* ---------- The parser ---------- */

  /** The part of the parser's state that a consumed prefix determines. */
  ghost predicate Consumed(s: seq<Byte>, token: Token, discard: bool, seen: set<nat>, order: seq<nat>, bad: bool) {
    && token == (if |Tail(s)| <= MAX_TOKEN_BYTES then Tail(s) else Tail(s)[..MAX_TOKEN_BYTES])
    && discard == (|Tail(s)| > MAX_TOKEN_BYTES)
    && order == Accepted(Completed(s))
    && Lists(seen, order)
    && bad == (Rejects(Completed(s)) || discard)
  }

  /** The set of the listed processes. */
  ghost predicate Lists(seen: set<nat>, order: seq<nat>) {
    forall x :: x in seen <==> x in order
  }

  lemma ListedIsSetOf(seen: set<nat>, order: seq<nat>)
    requires Lists(seen, order)
    ensures seen == SetOf(order)
  {
  }

  ghost predicate Batched(batches: seq<seq<nat>>, batch: seq<nat>, order: seq<nat>) {
    && Flatten(batches) + batch == order
    && |batch| <= BATCH_SIZE
    && forall i | 0 <= i < |batches| :: |batches[i]| == BATCH_SIZE
  }

  method FinishDirectChildToken(token: Token, seen: set<nat>, batch: seq<nat>)
    returns (error: bool, seen': set<nat>, batch': seq<nat>)
    requires |token| <= MAX_TOKEN_BYTES
    ensures error <==> token != [] && (!ValidToken(token) || Value(token) in seen)
    ensures error || token == [] ==> seen' == seen && batch' == batch
    ensures !error && token != [] ==> seen' == seen + {Value(token)} && batch' == batch + [Value(token)]
  {
    error, seen', batch' := false, seen, batch;
    if token == [] {
      return;
    }
    if !AllDigits(token) {
      error := true;
      return;
    }
    var processId := Value(token);
    if processId <= 0 {
      error := true;
      return;
    }
    if processId in seen {
      error := true;
      return;
    }
    seen' := seen + {processId};
    batch' := batch + [processId];
  }

  /** `Consumed` after one more byte that is not whitespace. */
  lemma ConsumedStep(s: seq<Byte>, value: Byte)
    ensures IsWhite(value) ==> Tail(s + [value]) == []
    ensures IsWhite(value) ==> Completed(s + [value]) == Completed(s) + if Tail(s) == [] then [] else [Tail(s)]
    ensures !IsWhite(value) ==> Tail(s + [value]) == Tail(s) + [value] && Completed(s + [value]) == Completed(s)
  {
    assert (s + [value])[..|s + [value]| - 1] == s;
  }

  lemma FlattenStep(batches: seq<seq<nat>>, batch: seq<nat>)
    ensures Flatten(batches + [batch]) == Flatten(batches) + batch
  {
    assert (batches + [batch])[..|batches + [batch]| - 1] == batches;
  }

  /** A byte that is not whitespace extends the token or, past the bound, discards it. */
  method ExtendToken(ghost s: seq<Byte>, value: Byte, token: Token, discard: bool,
                     ghost seen: set<nat>, ghost order: seq<nat>, bad: bool)
    returns (token': Token, discard': bool, bad': bool)
    requires Consumed(s, token, discard, seen, order, bad) && !IsWhite(value)
    ensures Consumed(s + [value], token', discard', seen, order, bad')
  {
    ConsumedStep(s, value);
    if |token| >= MAX_TOKEN_BYTES {
      assert (Tail(s) + [value])[..MAX_TOKEN_BYTES] == token;
      return token, true, true;
    }
    token', discard', bad' := token + [value], discard, bad;
  }

  /** Finishes the token whose bounded prefix is buffered; a discarded one is already rejected. */
  method FinishToken(ghost tail: Token, token: Token, discard: bool, seen: set<nat>, ghost order: seq<nat>, batch: seq<nat>, bad: bool)
    returns (seen': set<nat>, ghost order': seq<nat>, batch': seq<nat>, bad': bool)
    requires token == (if |tail| <= MAX_TOKEN_BYTES then tail else tail[..MAX_TOKEN_BYTES])
    requires discard == (|tail| > MAX_TOKEN_BYTES) && (discard ==> bad) && Lists(seen, order)
    ensures order' == if ValidToken(tail) && Value(tail) !in order then order + [Value(tail)] else order
    ensures batch' == if ValidToken(tail) && Value(tail) !in order then batch + [Value(tail)] else batch
    ensures Lists(seen', order')
    ensures bad' <==> bad || (tail != [] && (!ValidToken(tail) || Value(tail) in order))
  {
    seen', order', batch', bad' := seen, order, batch, bad;
    if !discard {
      var error;
      error, seen', batch' := FinishDirectChildToken(token, seen, batch);
      bad' := bad || error;
      if |token| > 0 && !error {
        order' := order + [Value(token)];
      }
    }
  }

  /** Whitespace finishes the token. */
  method EndToken(ghost s: seq<Byte>, value: Byte, token: Token, discard: bool,
                  seen: set<nat>, ghost order: seq<nat>, batch: seq<nat>, ghost batches: seq<seq<nat>>, bad: bool)
    returns (seen': set<nat>, ghost order': seq<nat>, batch': seq<nat>, bad': bool)
    requires Consumed(s, token, discard, seen, order, bad) && IsWhite(value)
    requires Batched(batches, batch, order) && |batch| < BATCH_SIZE
    ensures Consumed(s + [value], [], false, seen', order', bad')
    ensures Batched(batches, batch', order')
  {
    ConsumedStep(s, value);
    AcceptedStep(Completed(s), Tail(s));
    seen', order', batch', bad' := FinishToken(Tail(s), token, discard, seen, order, batch, bad);
    StillBatched(batches, batch, order, Value(Tail(s)));
  }

  /** Batch and order grow by the same process. */
  lemma StillBatched(batches: seq<seq<nat>>, batch: seq<nat>, order: seq<nat>, v: nat)
    requires Batched(batches, batch, order) && |batch| < BATCH_SIZE
    ensures Batched(batches, batch + [v], order + [v])
  {
    assert Flatten(batches) + (batch + [v]) == (Flatten(batches) + batch) + [v];
  }

  /** `Accepted` and `Rejects` when whitespace completes one more token. */
  lemma AcceptedStep(toks: seq<Token>, t: Token)
    ensures Accepted(toks + [t]) ==
            if ValidToken(t) && Value(t) !in Accepted(toks) then Accepted(toks) + [Value(t)] else Accepted(toks)
    ensures Rejects(toks + [t]) <==> Rejects(toks) || !ValidToken(t) || Value(t) in Accepted(toks)
  {
    assert (toks + [t])[..|toks + [t]| - 1] == toks;
  }

  /** Consumes one byte; a full batch is handed on. */
  method ConsumeByte(ghost s: seq<Byte>, value: Byte, token: Token, discard: bool,
                     seen: set<nat>, ghost order: seq<nat>, batch: seq<nat>, batches: seq<seq<nat>>, bad: bool)
    returns (token': Token, discard': bool, seen': set<nat>, ghost order': seq<nat>,
             batch': seq<nat>, batches': seq<seq<nat>>, bad': bool)
    requires Consumed(s, token, discard, seen, order, bad)
    requires Batched(batches, batch, order) && |batch| < BATCH_SIZE
    ensures Consumed(s + [value], token', discard', seen', order', bad')
    ensures Batched(batches', batch', order') && |batch'| < BATCH_SIZE
  {
    token', discard', seen', order', batch', batches', bad' := token, discard, seen, order, batch, batches, bad;
    if IsWhite(value) {
      seen', order', batch', bad' := EndToken(s, value, token, discard, seen, order, batch, batches, bad);
      token', discard' := [], false;
      if |batch'| == BATCH_SIZE {
        FlattenStep(batches, batch');
        batches', batch' := batches + [batch'], [];
      }
    } else {
      token', discard', bad' := ExtendToken(s, value, token, discard, seen, order, bad);
    }
  }

  /** Consumes the bytes of one read. */
  method ConsumePayload(ghost s: seq<Byte>, payload: seq<Byte>, token: Token, discard: bool,
                        seen: set<nat>, ghost order: seq<nat>, batch: seq<nat>, batches: seq<seq<nat>>, bad: bool)
    returns (token': Token, discard': bool, seen': set<nat>, ghost order': seq<nat>,
             batch': seq<nat>, batches': seq<seq<nat>>, bad': bool)
    requires Consumed(s, token, discard, seen, order, bad)
    requires Batched(batches, batch, order) && |batch| < BATCH_SIZE
    ensures Consumed(s + payload, token', discard', seen', order', bad')
    ensures Batched(batches', batch', order') && |batch'| < BATCH_SIZE
  {
    token', discard', seen', order', batch', batches', bad' := token, discard, seen, order, batch, batches, bad;
    ghost var read := s;
    assert s + payload[..0] == s;
    for j := 0 to |payload|
      invariant read == s + payload[..j]
      invariant Consumed(read, token', discard', seen', order', bad')
      invariant Batched(batches', batch', order') && |batch'| < BATCH_SIZE
    {
      assert s + payload[..j + 1] == s + payload[..j] + [payload[j]];
      token', discard', seen', order', batch', batches', bad' :=
        ConsumeByte(read, payload[j], token', discard', seen', order', batch', batches', bad');
      read := read + [payload[j]];
    }
    assert payload[..|payload|] == payload;
  }

  lemma EndOfFileStep(s: seq<Byte>)
    ensures var before, t := Accepted(Completed(s)), Tail(s);
            && Accepted(Tokens(s)) == (if ValidToken(t) && Value(t) !in before then before + [Value(t)] else before)
            && (Rejects(Tokens(s)) <==>
                Rejects(Completed(s)) || (t != [] && (!ValidToken(t) || Value(t) in before)))
  {
    AcceptedStep(Completed(s), Tail(s));
    assert Tail(s) == [] ==> Tokens(s) == Completed(s);
  }

  /** End of file completes the last token and the last batch. */
  method FinishList(ghost s: seq<Byte>, token: Token, discard: bool, seen: set<nat>, ghost order: seq<nat>,
                    batch: seq<nat>, batches: seq<seq<nat>>, bad: bool)
    returns (batches': seq<seq<nat>>, seen': set<nat>, bad': bool)
    requires Consumed(s, token, discard, seen, order, bad)
    requires Batched(batches, batch, order) && |batch| < BATCH_SIZE
    ensures Flatten(batches') == Accepted(Tokens(s)) && seen' == SetOf(Flatten(batches'))
    ensures bad' <==> Rejects(Tokens(s))
    ensures forall i | 0 <= i < |batches'| :: 1 <= |batches'[i]| <= BATCH_SIZE
    ensures forall i | 0 <= i < |batches'| - 1 :: |batches'[i]| == BATCH_SIZE
  {
    EndOfFileStep(s);
    StillBatched(batches, batch, order, Value(Tail(s)));
    var lastBatch;
    ghost var order';
    seen', order', lastBatch, bad' := FinishToken(Tail(s), token, discard, seen, order, batch, bad);
    batches' := CloseBatch(batches, lastBatch, order');
    ListedIsSetOf(seen', order');
  }

  /** Hands on the last batch, unless it is empty. */
  method CloseBatch(batches: seq<seq<nat>>, batch: seq<nat>, ghost order: seq<nat>) returns (batches': seq<seq<nat>>)
    requires Batched(batches, batch, order)
    ensures Flatten(batches') == order
    ensures forall i | 0 <= i < |batches'| :: 1 <= |batches'[i]| <= BATCH_SIZE
    ensures forall i | 0 <= i < |batches'| - 1 :: |batches'[i]| == BATCH_SIZE
  {
    batches' := batches;
    if |batch| > 0 {
      FlattenStep(batches, batch);
      batches' := batches + [batch];
    } else {
      assert Flatten(batches) + batch == Flatten(batches);
    }
  }

  lemma DeliveredStep(answers: seq<Read>, i: nat)
    requires i < |answers| && forall k | 0 <= k <= i :: !Stops(answers[k])
    ensures Delivered(answers[..i + 1]) ==
            Delivered(answers[..i]) + if answers[i].Data? then answers[i].payload else []
  {
    DeliveredSplit(answers[..i + 1], i);
    assert answers[..i + 1][..i] == answers[..i];
    assert answers[..i + 1][i..] == [answers[i]];
    assert [answers[i]][1..] == [];
    assert Delivered([answers[i]]) == if answers[i].Data? then answers[i].payload else [];
  }

  /** Parses the list in fixed-size reads and bounded batches.  The batches, the
      set of observed processes and the verdict depend on the delivered bytes
      alone, not on how the reads split them. */
  method IterDirectChildBatches(answers: seq<Read>)
    returns (batches: seq<seq<nat>>, seen: set<nat>, outcome: Outcome)
    ensures outcome == ReadError <==> Fails(answers)
    ensures Fails(answers) ==> seen == SetOf(Accepted(Completed(Delivered(answers))))
    ensures Fails(answers) ==> Flatten(batches) <= Accepted(Completed(Delivered(answers)))
    ensures !Fails(answers) ==>
              Flatten(batches) == Accepted(Tokens(Delivered(answers))) && seen == SetOf(Flatten(batches))
    ensures !Fails(answers) ==> (outcome == ParseError <==> Rejects(Tokens(Delivered(answers))))
    ensures forall i | 0 <= i < |batches| :: 1 <= |batches[i]| <= BATCH_SIZE
    ensures forall i | 0 <= i < |batches| - 1 :: |batches[i]| == BATCH_SIZE
  {
    var token: Token := [];
    var batch: seq<nat> := [];
    var bad, discard := false, false;
    ghost var order: seq<nat> := [];
    ghost var s: seq<Byte> := [];
    batches, seen := [], {};
    var i := 0;
    while i < |answers| && !Stops(answers[i])
      invariant 0 <= i <= |answers|
      invariant forall k | 0 <= k < i :: !Stops(answers[k])
      invariant s == Delivered(answers[..i])
      invariant Consumed(s, token, discard, seen, order, bad)
      invariant Batched(batches, batch, order) && |batch| < BATCH_SIZE
    {
      DeliveredStep(answers, i);
      if answers[i].Data? {
        token, discard, seen, order, batch, batches, bad :=
          ConsumePayload(s, answers[i].payload, token, discard, seen, order, batch, batches, bad);
        s := s + answers[i].payload;
      }
      i := i + 1;
    }
    DeliveredSplit(answers, i);
    assert Delivered(answers[i..]) == [];
    assert Delivered(answers) == s;
    if i < |answers| && answers[i].ReadFailure? {
      ListedIsSetOf(seen, order);
      return batches, seen, ReadError;
    }
    batches, seen, bad := FinishList(s, token, discard, seen, order, batch, batches, bad);
    outcome := if bad then ParseError else Complete;
  }

  /** The snapshot keeps every process observed before a failure. */
  method ReadDirectChildrenSnapshot(answers: seq<Read>) returns (children: set<nat>, failed: bool)
    ensures failed <==> Fails(answers) || Rejects(Tokens(Delivered(answers)))
    ensures children == Observed(if Fails(answers) then Completed(Delivered(answers)) else Tokens(Delivered(answers)))
  {
    var batches, seen, outcome := IterDirectChildBatches(answers);
    children := {};
    for i := 0 to |batches|
      invariant children == SetOf(Flatten(batches[..i]))
    {
      assert batches[..i + 1][..i] == batches[..i];
      children := children + SetOf(batches[i]);
    }
    assert batches[..|batches|] == batches;
    if outcome != Complete {
      children := children + seen;
    }
    failed := outcome != Complete;
    AcceptedIsObserved(if Fails(answers) then Completed(Delivered(answers)) else Tokens(Delivered(answers)));
  }

  /* ---------- Independent readings of the specification ---------- */

  /** The processes that valid tokens name. */
  ghost function Observed(toks: seq<Token>): set<nat> {
    set i | 0 <= i < |toks| && ValidToken(toks[i]) :: Value(toks[i])
  }

  lemma {:induction false} AcceptedIsObserved(toks: seq<Token>)
    ensures SetOf(Accepted(toks)) == Observed(toks)
    ensures forall i, j | 0 <= i < j < |Accepted(toks)| :: Accepted(toks)[i] != Accepted(toks)[j]
  {
    if toks != [] {
      var before, t := toks[..|toks| - 1], toks[|toks| - 1];
      AcceptedIsObserved(before);
      assert Observed(toks) == Observed(before) + (if ValidToken(t) then {Value(t)} else {}) by {
        forall v | v in Observed(before) ensures v in Observed(toks) {
          var i :| 0 <= i < |before| && ValidToken(before[i]) && Value(before[i]) == v;
          assert toks[i] == before[i];
        }
        forall v | v in Observed(toks) ensures v in Observed(before) + (if ValidToken(t) then {Value(t)} else {}) {
          var i :| 0 <= i < |toks| && ValidToken(toks[i]) && Value(toks[i]) == v;
          if i < |before| {
            assert toks[i] == before[i];
          }
        }
      }
    }
  }

  /** The verdict, without reference to the order of parsing: a list is rejected
      exactly when a token names no process or two tokens name the same one. */
  lemma {:induction false} RejectsExactly(toks: seq<Token>)
    ensures Rejects(toks) <==>
            || (exists i | 0 <= i < |toks| :: !ValidToken(toks[i]))
            || (exists i, j | 0 <= i < j < |toks| :: Value(toks[i]) == Value(toks[j]))
  {
    if toks != [] {
      var before, t := toks[..|toks| - 1], toks[|toks| - 1];
      RejectsExactly(before);
      AcceptedIsObserved(before);
      if Rejects(before) {
        if i :| 0 <= i < |before| && !ValidToken(before[i]) {
          assert !ValidToken(toks[i]);
        } else {
          var i, j :| 0 <= i < j < |before| && Value(before[i]) == Value(before[j]);
          assert Value(toks[i]) == Value(toks[j]);
        }
      } else if ValidToken(t) {
        if Value(t) in Accepted(before) {
          assert Value(t) in SetOf(Accepted(before));
          var i :| 0 <= i < |before| && ValidToken(before[i]) && Value(before[i]) == Value(t);
          assert Value(toks[i]) == Value(toks[|toks| - 1]);
        } else {
          forall i | 0 <= i < |toks| ensures ValidToken(toks[i]) {
            if i < |before| { assert toks[i] == before[i]; }
          }
          forall i, j | 0 <= i < j < |toks| ensures Value(toks[i]) != Value(toks[j]) {
            assert toks[i] == before[i];
            if j < |before| {
              assert toks[j] == before[j];
            } else {
              assert Value(before[i]) in Observed(before);
            }
          }
        }
      }
    }
  }

  /* ---------- Round trip with the kernel's rendering ---------- */

  /** The numeral in ASCII. */
  function Ascii(text: string): Token {
    seq(|text|, i requires 0 <= i < |text| => text[i] as int % 256)
  }

  function AsciiDecimal(n: nat): Token {
    Ascii(Decimal(n))
  }

  lemma AsciiDecimalStep(n: nat)
    ensures AsciiDecimal(n) == if n < 10 then [48 + n] else AsciiDecimal(n / 10) + [48 + n % 10]
  {
    if n >= 10 {
      assert Decimal(n) == Decimal(n / 10) + [Digit(n % 10)];
    }
  }

  /** The list as the kernel writes it: each process in decimal, then a space. */
  function Render(pids: seq<nat>): seq<Byte> {
    if pids == [] then [] else Render(pids[..|pids| - 1]) + AsciiDecimal(pids[|pids| - 1]) + [32]
  }

  lemma {:induction false} DecimalDenotes(n: nat)
    ensures Value(AsciiDecimal(n)) == n && AllDigits(AsciiDecimal(n)) && 0 < |AsciiDecimal(n)|
    decreases n
  {
    var d := AsciiDecimal(n);
    AsciiDecimalStep(n);
    if n < 10 {
      assert d[..0] == [];
      assert Value(d) == Value(d[..|d| - 1]) * 10 + (d[|d| - 1] - 48);
    } else {
      DecimalDenotes(n / 10);
      assert d[..|d| - 1] == AsciiDecimal(n / 10);
    }
  }

  lemma {:induction false} AppendToken(s: seq<Byte>, t: Token)
    requires Tail(s) == [] && t != [] && AllDigits(t)
    ensures Tail(s + t) == t && Completed(s + t) == Completed(s)
    decreases |t|
  {
    var init := t[..|t| - 1];
    assert (s + t)[..|s + t| - 1] == s + init;
    assert IsDigit(t[|t| - 1]);
    if init == [] {
      assert s + init == s;
    } else {
      AppendToken(s, init);
    }
    assert t == init + [t[|t| - 1]];
  }

  ghost function Decimals(pids: seq<nat>): (toks: seq<Token>)
    ensures |toks| == |pids| && forall i | 0 <= i < |pids| :: toks[i] == AsciiDecimal(pids[i])
  {
    if pids == [] then [] else Decimals(pids[..|pids| - 1]) + [AsciiDecimal(pids[|pids| - 1])]
  }

  lemma {:induction false} RenderTokens(pids: seq<nat>)
    ensures Tail(Render(pids)) == []
    ensures Tokens(Render(pids)) == Completed(Render(pids)) == Decimals(pids)
  {
    if pids != [] {
      var before, p := pids[..|pids| - 1], pids[|pids| - 1];
      RenderTokens(before);
      DecimalDenotes(p);
      AppendToken(Render(before), AsciiDecimal(p));
      ConsumedStep(Render(before) + AsciiDecimal(p), 32);
    }
  }

  lemma NextIsAccepted(toks: seq<Token>, pids: seq<nat>, t: Token, p: nat)
    requires Accepted(toks) == pids && !Rejects(toks) && ValidToken(t) && Value(t) == p && p !in pids
    ensures Accepted(toks + [t]) == pids + [p] && !Rejects(toks + [t])
  {
    AcceptedStep(toks, t);
  }

  /** Numerals of distinct processes are accepted one by one. */
  lemma {:induction false} DecimalsAreAccepted(pids: seq<nat>)
    requires forall i | 0 <= i < |pids| :: pids[i] > 0 && |AsciiDecimal(pids[i])| <= MAX_TOKEN_BYTES
    requires forall i, j | 0 <= i < j < |pids| :: pids[i] != pids[j]
    ensures Accepted(Decimals(pids)) == pids && !Rejects(Decimals(pids))
  {
    if pids != [] {
      var before, p := pids[..|pids| - 1], pids[|pids| - 1];
      DecimalsAreAccepted(before);
      DecimalDenotes(p);
      assert pids == before + [p];
      NextIsAccepted(Decimals(before), before, AsciiDecimal(p), p);
    }
  }

  /** Round trip: a list of distinct processes written by the kernel is read back
      exactly, and accepted, whatever the reads do to it. */
  lemma RenderedListIsReadBack(pids: seq<nat>)
    requires forall i | 0 <= i < |pids| :: pids[i] > 0 && |AsciiDecimal(pids[i])| <= MAX_TOKEN_BYTES
    requires forall i, j | 0 <= i < j < |pids| :: pids[i] != pids[j]
    ensures Accepted(Tokens(Render(pids))) == pids && !Rejects(Tokens(Render(pids)))
  {
    RenderTokens(pids);
    DecimalsAreAccepted(pids);
  }
}
