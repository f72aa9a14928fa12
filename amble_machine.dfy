/** The console-note state machine of AnsiHtmlOutputStream as pure functions:
    what one call of write(int) does to the mode, the cursor and the log, and
    what a whole input does. The class in module AnsiHtml is proved against it. */
module AmbleMachine {
  import opened Events

  /** The five modes of the stream. */
  datatype State = Init | Data | Preamble | Note | Postamble

  /** The two markers (ConsoleNote.PREAMBLE and ConsoleNote.POSTAMBLE) and the
      answers of processor.isWritingEnabled(), by the number of the query. */
  datatype Env = Env(pre: seq<byte>, post: seq<byte>, gate: nat -> bool) {
    predicate Valid() { |pre| > 0 && |post| > 0 }
  }

  /** The mode, the cursor amblePos, and how many times the gate was asked. */
  datatype Machine = Machine(state: State, pos: nat, queries: nat)

  /** A new machine and the events produced on the way to it. */
  datatype Outcome = Outcome(m: Machine, events: seq<Event>)

  /** A freshly constructed stream. */
  const Start := Machine(Init, 0, 0)

  predicate Accumulating(st: State) { st == Preamble || st == Postamble }

  /** The marker a mode is concerned with: DATA looks for the first byte of the
      preamble, NOTE for that of the postamble, and the two accumulating modes
      compare the next byte of theirs. */
  function Amble(env: Env, st: State): seq<byte> {
    if st == Note || st == Postamble then env.post else env.pre
  }

  /** The accumulating mode the first byte of the awaited marker leads to. */
  function Accumulator(st: State): State { if st == Note then Postamble else Preamble }

  /** The mode a mismatch returns to. */
  function Resume(st: State): State { if st == Postamble then Note else Data }

  /** The mode a full match enters. */
  function Flip(st: State): State { if st == Postamble then Data else Note }

  /** The mode/cursor invariant that holds whenever write(int) is not running:
      the cursor is 0 outside a marker and strictly inside the marker while one is
      being matched. */
  predicate Between(env: Env, m: Machine) {
    if Accumulating(m.state) then 1 <= m.pos < |Amble(env, m.state)| else m.pos == 0
  }

  /** The marker bytes matched so far and not yet handed on. */
  function Pending(env: Env, m: Machine): seq<byte>
    requires Between(env, m)
  {
    if Accumulating(m.state) then Amble(env, m.state)[..m.pos] else []
  }

  /** Whether collectAmbleCharacter would reject `b`. */
  predicate Mismatches(env: Env, m: Machine, b: byte) {
    Accumulating(m.state) && m.pos < |Amble(env, m.state)| && b != Amble(env, m.state)[m.pos]
  }

  /** processAndwriteToOutputStream(b): one query, then one byte into the decoder. */
  function Forward(env: Env, m: Machine, b: byte): (r: Outcome)
    ensures Bytes(r.events) == [b] && Logged(env.gate, r.events, m.queries, r.m.queries)
    ensures r.m.state == m.state && r.m.pos == m.pos
    ensures r.m.queries == m.queries + 1 && |r.events| == 1 && r.events[0].Decoded?
  {
    var e := Decoded(b, Route(env.gate(m.queries)));
    SingleHandOff(env.gate, e, m.queries);
    Outcome(m.(queries := m.queries + 1), [e])
  }

  /** processAndwriteToOutputStream for each byte of `s` in order, the queries numbered from `q`. */
  function Replay(gate: nat -> bool, s: seq<byte>, q: nat): (r: seq<Event>)
    ensures |r| == |s|
    decreases |s|
  {
    if s == [] then [] else [Decoded(s[0], Route(gate(q)))] + Replay(gate, s[1..], q + 1)
  }

  /** A replay hands on exactly its bytes, one query each, and nothing else. */
  lemma {:induction false} ReplayFacts(gate: nat -> bool, s: seq<byte>, q: nat)
    ensures Bytes(Replay(gate, s, q)) == s
    ensures Logged(gate, Replay(gate, s, q), q, q + |s|)
    ensures InitCalls(Replay(gate, s, q)) == 0
    decreases |s|
  {
    if s != [] {
      var head := [Decoded(s[0], Route(gate(q)))];
      ReplayFacts(gate, s[1..], q + 1);
      SingleHandOff(gate, head[0], q);
      BytesAppend(head, Replay(gate, s[1..], q + 1));
      InitCallsAppend(head, Replay(gate, s[1..], q + 1));
      LoggedAppend(gate, head, Replay(gate, s[1..], q + 1), q, q + 1, q + |s|);
    }
  }

  /** Replaying one more byte adds one hand-off at the end. */
  lemma {:induction false} ReplaySnoc(gate: nat -> bool, s: seq<byte>, x: byte, q: nat)
    ensures Replay(gate, s + [x], q) == Replay(gate, s, q) + [Decoded(x, Route(gate(q + |s|)))]
    decreases |s|
  {
    if s == [] {
      assert s + [x] == [x];
    } else {
      assert (s + [x])[1..] == s[1..] + [x];
      ReplaySnoc(gate, s[1..], x, q + 1);
    }
  }

  /** A log of one hand-off that went where the gate's answer `q` said. */
  lemma SingleHandOff(gate: nat -> bool, e: Event, q: nat)
    requires e.IsHandOff() && e.sink == Route(gate(q))
    ensures Bytes([e]) == (if e.Decoded? then [e.b] else e.bytes)
    ensures Logged(gate, [e], q, q + 1) && InitCalls([e]) == 0
  {
    assert [e][1..] == [];
  }

  /** The facts the mismatch branch of collectAmbleCharacter needs: the replayed
      prefix, then whatever the re-dispatch of the rejected byte produced. */
  lemma MismatchFacts(env: Env, m: Machine, b: byte, o: Outcome)
    requires env.Valid() && Accumulating(m.state) && m.pos < |Amble(env, m.state)|
    requires Between(env, o.m) && o.m.state != Init
    requires Bytes(o.events) + Pending(env, o.m) == [b]
    requires Logged(env.gate, o.events, m.queries + m.pos, o.m.queries)
    requires InitCalls(o.events) == 0
    ensures var r := Replay(env.gate, Amble(env, m.state)[..m.pos], m.queries) + o.events;
      Bytes(r) + Pending(env, o.m) == Amble(env, m.state)[..m.pos] + [b] &&
      Logged(env.gate, r, m.queries, o.m.queries) && InitCalls(r) == 0
  {
    var prefix := Amble(env, m.state)[..m.pos];
    var replayed := Replay(env.gate, prefix, m.queries);
    ReplayFacts(env.gate, prefix, m.queries);
    BytesAppend(replayed, o.events);
    InitCallsAppend(replayed, o.events);
    LoggedAppend(env.gate, replayed, o.events, m.queries, m.queries + m.pos, o.m.queries);
    Assoc(prefix, Bytes(o.events), Pending(env, o.m));
  }

  /** The facts the INIT branch of write needs: initTags() comes first and hands nothing on. */
  lemma InitFacts(gate: nat -> bool, es: seq<Event>, q: nat, q': nat)
    requires Logged(gate, es, q, q') && InitCalls(es) == 0
    ensures Bytes([InitTags] + es) == Bytes(es)
    ensures Logged(gate, [InitTags] + es, q, q')
    ensures InitCalls([InitTags] + es) == 1 && ([InitTags] + es)[0] == InitTags
  {
    var head := [InitTags];
    assert head[1..] == [];
    assert Logged(gate, head, q, q);
    BytesAppend(head, es);
    InitCallsAppend(head, es);
    LoggedAppend(gate, head, es, q, q, q');
  }

  /** One call of write(int): INIT runs initTags() and becomes DATA, then DATA and
      NOTE either hand the byte on or start matching their marker, and the two
      accumulating modes go on matching. Between calls the mode/cursor invariant
      holds and the mode is never INIT again; what the byte does to the log is
      stated by StepSound. */
  function Step(env: Env, m: Machine, b: byte): (r: Outcome)
    requires env.Valid() && Between(env, m)
    ensures Between(env, r.m) && r.m.state != Init
    decreases if Mismatches(env, m, b) then 1 else 0, 1
  {
    var st := if m.state == Init then Data else m.state;
    var o :=
      if st == Data || st == Note then
        if b == Amble(env, st)[0] then Collect(env, Machine(Accumulator(st), 0, m.queries), b)
        else Forward(env, m.(state := st), b)
      else
        Collect(env, m, b);
    if m.state == Init then Outcome(o.m, [InitTags] + o.events) else o
  }

  /** collectAmbleCharacter(b, amble) for the marker of the accumulating mode, from
      cursor m.pos (which may be 0 when called from DATA or NOTE). */
  function Collect(env: Env, m: Machine, b: byte): (r: Outcome)
    requires env.Valid() && Accumulating(m.state) && m.pos < |Amble(env, m.state)|
    ensures Between(env, r.m) && r.m.state != Init
    decreases if Mismatches(env, m, b) then 1 else 0, 0
  {
    var amble := Amble(env, m.state);
    if b != amble[m.pos] then
      var o := Step(env, Machine(Resume(m.state), 0, m.queries + m.pos), b);
      Outcome(o.m, Replay(env.gate, amble[..m.pos], m.queries) + o.events)
    else if m.pos == |amble| - 1 then
      Outcome(Machine(Flip(m.state), 0, m.queries + 1), [Block(amble, Route(env.gate(m.queries)))])
    else
      Outcome(m.(pos := m.pos + 1), [])
  }

  /** What one call of write(int) does to the log. The byte is either handed on or
      joins the pending marker prefix, so nothing is lost or reordered; every
      hand-off follows its own query; initTags() runs exactly on the first call,
      before anything else. */
  lemma {:induction false} StepSound(env: Env, m: Machine, b: byte)
    requires env.Valid() && Between(env, m)
    ensures var r := Step(env, m, b);
      Bytes(r.events) + Pending(env, r.m) == Pending(env, m) + [b] &&
      Logged(env.gate, r.events, m.queries, r.m.queries) &&
      InitCalls(r.events) == (if m.state == Init then 1 else 0) &&
      (m.state == Init ==> r.events != [] && r.events[0] == InitTags)
    decreases if Mismatches(env, m, b) then 1 else 0, 1, if m.state == Init then 1 else 0
  {
    if m.state == Init {
      var m1 := m.(state := Data);
      StepSound(env, m1, b);
      var o := Step(env, m1, b);
      InitFacts(env.gate, o.events, m.queries, o.m.queries);
    } else if m.state == Data || m.state == Note {
      if b == Amble(env, m.state)[0] {
        CollectSound(env, Machine(Accumulator(m.state), 0, m.queries), b);
      } else {
        SingleHandOff(env.gate, Decoded(b, Route(env.gate(m.queries))), m.queries);
      }
    } else {
      CollectSound(env, m, b);
    }
  }

  /** What collectAmbleCharacter does to the log: the bytes matched before, and
      this one, are handed on or stay pending, each hand-off after its own query. */
  lemma {:induction false} CollectSound(env: Env, m: Machine, b: byte)
    requires env.Valid() && Accumulating(m.state) && m.pos < |Amble(env, m.state)|
    ensures var r := Collect(env, m, b);
      Bytes(r.events) + Pending(env, r.m) == Amble(env, m.state)[..m.pos] + [b] &&
      Logged(env.gate, r.events, m.queries, r.m.queries) &&
      InitCalls(r.events) == 0
    decreases if Mismatches(env, m, b) then 1 else 0, 0, 0
  {
    var amble := Amble(env, m.state);
    if b != amble[m.pos] {
      var again := Machine(Resume(m.state), 0, m.queries + m.pos);
      var o := Step(env, again, b);
      assert Collect(env, m, b) == Outcome(o.m, Replay(env.gate, amble[..m.pos], m.queries) + o.events);
      StepSound(env, again, b);
      MismatchFacts(env, m, b, o);
    } else if m.pos == |amble| - 1 {
      var block := Block(amble, Route(env.gate(m.queries)));
      assert Collect(env, m, b) == Outcome(Machine(Flip(m.state), 0, m.queries + 1), [block]);
      assert amble[..m.pos] + [b] == amble;
      SingleHandOff(env.gate, block, m.queries);
    } else {
      assert Logged(env.gate, [], m.queries, m.queries);
    }
  }

  /** Steps over a whole input from machine `m`, collecting the events. */
  function Feed(env: Env, m: Machine, input: seq<byte>): (r: Outcome)
    requires env.Valid() && Between(env, m)
    ensures Between(env, r.m)
    decreases |input|
  {
    if input == [] then Outcome(m, [])
    else
      var o := Feed(env, m, input[..|input| - 1]);
      var s := Step(env, o.m, input[|input| - 1]);
      Outcome(s.m, o.events + s.events)
  }

  /** What a fresh stream does with `input`. */
  function Run(env: Env, input: seq<byte>): Outcome
    requires env.Valid()
  {
    Feed(env, Start, input)
  }
}

/** What the state machine promises, call by call and over a whole input. */
module AmbleProperties {
  import opened Events
  import opened AmbleMachine

  // ---- One call of write(int) ----

  /** In DATA or NOTE, a byte that does not start the awaited marker is handed to
      the decoder once, after one query, and leaves mode and cursor as they were. */
  lemma OrdinaryByte(env: Env, m: Machine, b: byte)
    requires env.Valid() && (m.state == Data || m.state == Note) && m.pos == 0
    requires b != Amble(env, m.state)[0]
    ensures Step(env, m, b) == Outcome(m.(queries := m.queries + 1), [Decoded(b, Route(env.gate(m.queries)))])
  {
  }

  /** In DATA or NOTE, the first byte of the awaited marker starts accumulating it
      with nothing handed on, unless the marker is that one byte long, in which case
      it is written at once as a block and the mode flips. */
  lemma TriggerByte(env: Env, m: Machine, b: byte)
    requires env.Valid() && (m.state == Data || m.state == Note) && m.pos == 0
    requires b == Amble(env, m.state)[0]
    ensures Step(env, m, b) ==
      if |Amble(env, m.state)| == 1 then
        Outcome(Machine(Flip(Accumulator(m.state)), 0, m.queries + 1),
                [Block(Amble(env, m.state), Route(env.gate(m.queries)))])
      else
        Outcome(Machine(Accumulator(m.state), 1, m.queries), [])
  {
  }

  /** The very first call runs initTags() before doing what DATA does with the byte. */
  lemma FirstByte(env: Env, b: byte)
    requires env.Valid()
    ensures var r := Step(env, Machine(Data, 0, 0), b);
      Step(env, Start, b) == Outcome(r.m, [InitTags] + r.events)
  {
  }

  /** A matching byte that is not the marker's last moves the cursor on and hands nothing on. */
  lemma Advance(env: Env, m: Machine, b: byte)
    requires env.Valid() && Between(env, m) && Accumulating(m.state)
    requires b == Amble(env, m.state)[m.pos] && m.pos < |Amble(env, m.state)| - 1
    ensures Step(env, m, b) == Outcome(m.(pos := m.pos + 1), [])
  {
  }

  /** The last byte of the marker: the whole marker is written as one block to the
      sink chosen by one query, the mode flips PREAMBLE to NOTE or POSTAMBLE to
      DATA, and the cursor returns to 0. */
  lemma FullMatch(env: Env, m: Machine, b: byte)
    requires env.Valid() && Between(env, m) && Accumulating(m.state)
    requires b == Amble(env, m.state)[m.pos] && m.pos == |Amble(env, m.state)| - 1
    ensures Step(env, m, b) ==
      Outcome(Machine(Flip(m.state), 0, m.queries + 1), [Block(Amble(env, m.state), Route(env.gate(m.queries)))])
    ensures Flip(m.state) == (if m.state == Preamble then Note else Data)
  {
  }

  /** A mismatch replays the matched prefix in order, one query and one decoder
      hand-off per byte, returns to DATA or NOTE with the cursor at 0, and then
      dispatches the rejected byte once more; that second dispatch hands on at most
      one event, so it never replays again. */
  lemma Mismatch(env: Env, m: Machine, b: byte)
    requires env.Valid() && Between(env, m) && Accumulating(m.state)
    requires b != Amble(env, m.state)[m.pos]
    ensures Resume(m.state) == (if m.state == Preamble then Data else Note)
    ensures var again := Step(env, Machine(Resume(m.state), 0, m.queries + m.pos), b);
      Step(env, m, b) == Outcome(again.m, Replay(env.gate, Amble(env, m.state)[..m.pos], m.queries) + again.events)
      && |again.events| <= 1
  {
  }

  // ---- A whole input ----

  /** Nothing is lost, duplicated or reordered: the bytes handed on, followed by the
      pending marker prefix, are the pending prefix at the start followed by the input. */
  lemma {:induction false} FeedLossless(env: Env, m: Machine, input: seq<byte>)
    requires env.Valid() && Between(env, m)
    ensures Bytes(Feed(env, m, input).events) + Pending(env, Feed(env, m, input).m) == Pending(env, m) + input
    decreases |input|
  {
    if input != [] {
      var init, last := input[..|input| - 1], input[|input| - 1];
      var o := Feed(env, m, init);
      var s := Step(env, o.m, last);
      FeedLossless(env, m, init);
      StepSound(env, o.m, last);
      BytesAppend(o.events, s.events);
      Chain(Bytes(o.events), Bytes(s.events), Pending(env, o.m), Pending(env, s.m), Pending(env, m), init, last);
      assert init + [last] == input;
    }
  }

  /** Every hand-off follows its own query, numbered on from the machine's count,
      the count afterwards is the number of hand-offs, and close() events never occur. */
  lemma {:induction false} FeedLogged(env: Env, m: Machine, input: seq<byte>)
    requires env.Valid() && Between(env, m)
    ensures Logged(env.gate, Feed(env, m, input).events, m.queries, Feed(env, m, input).m.queries)
    decreases |input|
  {
    if input == [] {
      assert Logged(env.gate, [], m.queries, m.queries);
    } else {
      var init, last := input[..|input| - 1], input[|input| - 1];
      var o := Feed(env, m, init);
      var s := Step(env, o.m, last);
      FeedLogged(env, m, init);
      StepSound(env, o.m, last);
      LoggedAppend(env.gate, o.events, s.events, m.queries, o.m.queries, s.m.queries);
    }
  }

  /** initTags() runs on the first byte only, as the first event, and the mode
      leaves INIT for good. */
  lemma {:induction false} FeedInit(env: Env, m: Machine, input: seq<byte>)
    requires env.Valid() && Between(env, m)
    ensures input != [] ==> Feed(env, m, input).m.state != Init
    ensures InitCalls(Feed(env, m, input).events) == (if m.state == Init && input != [] then 1 else 0)
    ensures m.state == Init && input != [] ==>
      Feed(env, m, input).events != [] && Feed(env, m, input).events[0] == InitTags
    decreases |input|
  {
    if input != [] {
      var init, last := input[..|input| - 1], input[|input| - 1];
      var o := Feed(env, m, init);
      var s := Step(env, o.m, last);
      FeedInit(env, m, init);
      StepSound(env, o.m, last);
      InitCallsAppend(o.events, s.events);
      if init == [] {
        assert o.events + s.events == s.events;
      }
    }
  }

  /** A whole stream is lossless: the flattened log followed by the pending prefix is the input. */
  lemma RunLossless(env: Env, input: seq<byte>)
    requires env.Valid()
    ensures Bytes(Run(env, input).events) + Pending(env, Run(env, input).m) == input
  {
    FeedLossless(env, Start, input);
  }

  /** Mode and cursor agree between calls: the cursor is 0 in INIT, DATA and NOTE;
      while a marker is being matched it lies strictly inside the marker and the
      last `pos` input bytes are the marker's first `pos`. */
  lemma RunCursor(env: Env, input: seq<byte>)
    requires env.Valid()
    ensures var m := Run(env, input).m;
      (Accumulating(m.state) ==> 1 <= m.pos < |Amble(env, m.state)|) &&
      (!Accumulating(m.state) ==> m.pos == 0)
    ensures var m := Run(env, input).m;
      m.pos <= |input| && input[|input| - m.pos..] == Pending(env, m)
  {
    var r := Run(env, input);
    RunLossless(env, input);
    assert input[|Bytes(r.events)|..] == Pending(env, r.m);
  }

  /** Gating over a whole stream: the k-th hand-off goes where the k-th query said,
      queries and hand-offs are in one-to-one correspondence. */
  lemma RunGated(env: Env, input: seq<byte>)
    requires env.Valid()
    ensures Gated(env.gate, Run(env, input).events, 0)
    ensures Run(env, input).m.queries == HandOffs(Run(env, input).events)
    ensures CloseFree(Run(env, input).events)
  {
    FeedLogged(env, Start, input);
  }

  /** initTags() runs exactly once if anything was written and not at all otherwise,
      before any byte is handed on; the mode is INIT exactly while nothing was written. */
  lemma RunInitOnce(env: Env, input: seq<byte>)
    requires env.Valid()
    ensures InitCalls(Run(env, input).events) == (if input == [] then 0 else 1)
    ensures Run(env, input).m.state == Init <==> input == []
    ensures input != [] ==> Run(env, input).events[0] == InitTags
  {
    FeedInit(env, Start, input);
  }

  /** Feeding two inputs one after the other is feeding their concatenation. */
  lemma {:induction false} FeedAppend(env: Env, m: Machine, a: seq<byte>, c: seq<byte>)
    requires env.Valid() && Between(env, m)
    ensures var x := Feed(env, m, a); var y := Feed(env, x.m, c);
      Feed(env, m, a + c) == Outcome(y.m, x.events + y.events)
    decreases |c|
  {
    var x := Feed(env, m, a);
    if c == [] {
      assert a + c == a;
    } else {
      var c', last := c[..|c| - 1], c[|c| - 1];
      FeedAppend(env, m, a, c');
      SnocSplit(a, c);
      var y' := Feed(env, x.m, c');
      var s := Step(env, y'.m, last);
      assert Feed(env, m, a + c) == Outcome(s.m, (x.events + y'.events) + s.events);
      Assoc(x.events, y'.events, s.events);
    }
  }

  /** FeedAppend with both parts' outcomes already known. */
  lemma FeedThen(env: Env, m: Machine, a: seq<byte>, c: seq<byte>, x: Outcome, y: Outcome)
    requires env.Valid() && Between(env, m)
    requires Feed(env, m, a) == x && Between(env, x.m) && Feed(env, x.m, c) == y
    ensures Feed(env, m, a + c) == Outcome(y.m, x.events + y.events)
  {
    FeedAppend(env, m, a, c);
  }

  /** Feeding one byte is one step. */
  lemma FeedOne(env: Env, m: Machine, b: byte)
    requires env.Valid() && Between(env, m)
    ensures Feed(env, m, [b]) == Step(env, m, b)
  {
    assert [b][..0] == [];
  }

  /** Input without the awaited marker's first byte is handed to the decoder byte for
      byte, in order, one query each, and the mode does not change. */
  lemma {:induction false} FeedPlain(env: Env, m: Machine, s: seq<byte>)
    requires env.Valid() && (m.state == Data || m.state == Note) && m.pos == 0
    requires forall i :: 0 <= i < |s| ==> s[i] != Amble(env, m.state)[0]
    ensures Feed(env, m, s) == Outcome(m.(queries := m.queries + |s|), Replay(env.gate, s, m.queries))
    decreases |s|
  {
    if s != [] {
      var init, last := s[..|s| - 1], s[|s| - 1];
      FeedPlain(env, m, init);
      OrdinaryByte(env, m.(queries := m.queries + |init|), last);
      ReplaySnoc(env.gate, init, last, m.queries);
      assert init + [last] == s;
    }
  }

  /** Byte-exactness of a marker-free stream: with no byte equal to the preamble's
      first, every byte reaches the decoder, in order, after initTags(). */
  lemma RunPlain(env: Env, s: seq<byte>)
    requires env.Valid() && s != []
    requires forall i :: 0 <= i < |s| ==> s[i] != env.pre[0]
    ensures Run(env, s) == Outcome(Machine(Data, 0, |s|), [InitTags] + Replay(env.gate, s, 0))
    ensures Bytes(Run(env, s).events) == s
  {
    StartPlain(env, s);
    PlainBytes(env.gate, s);
  }

  lemma StartPlain(env: Env, s: seq<byte>)
    requires env.Valid() && s != []
    requires forall i :: 0 <= i < |s| ==> s[i] != env.pre[0]
    ensures Feed(env, Start, s) == Outcome(Machine(Data, 0, |s|), [InitTags] + Replay(env.gate, s, 0))
  {
    var first := [InitTags, Decoded(s[0], Route(env.gate(0)))];
    var d1 := Machine(Data, 0, 1);
    FirstPlainByte(env, s[0]);
    FeedPlain(env, d1, s[1..]);
    FeedThen(env, Start, [s[0]], s[1..], Outcome(d1, first), Outcome(Machine(Data, 0, |s|), Replay(env.gate, s[1..], 1)));
    ConsSplit(s);
    ReplayCons(env.gate, s);
  }

  /** The first byte of a stream, when it does not start a preamble. */
  lemma FirstPlainByte(env: Env, b: byte)
    requires env.Valid() && b != env.pre[0]
    ensures Feed(env, Start, [b]) == Outcome(Machine(Data, 0, 1), [InitTags, Decoded(b, Route(env.gate(0)))])
  {
    FeedOne(env, Start, b);
    FirstByte(env, b);
    OrdinaryByte(env, Machine(Data, 0, 0), b);
    assert [InitTags] + [Decoded(b, Route(env.gate(0)))] == [InitTags, Decoded(b, Route(env.gate(0)))];
  }

  lemma ReplayCons(gate: nat -> bool, s: seq<byte>)
    requires s != []
    ensures [InitTags] + Replay(gate, s, 0) == [InitTags, Decoded(s[0], Route(gate(0)))] + Replay(gate, s[1..], 1)
  {
  }

  /** The bytes handed on by initTags() followed by a replay of `s`. */
  lemma PlainBytes(gate: nat -> bool, s: seq<byte>)
    ensures Bytes([InitTags] + Replay(gate, s, 0)) == s
  {
    ReplayFacts(gate, s, 0);
    InitFacts(gate, Replay(gate, s, 0), 0, |s|);
  }

  /** Matching a marker from DATA or NOTE: after its first k bytes (k short of its
      length) the machine accumulates at cursor k and has handed nothing on. */
  lemma {:induction false} FeedAmblePrefix(env: Env, m: Machine, k: nat)
    requires env.Valid() && (m.state == Data || m.state == Note) && m.pos == 0
    requires 1 <= k < |Amble(env, m.state)|
    ensures Feed(env, m, Amble(env, m.state)[..k]) == Outcome(Machine(Accumulator(m.state), k, m.queries), [])
    decreases k
  {
    var amble := Amble(env, m.state);
    assert amble[..k][..k - 1] == amble[..k - 1];
    if k == 1 {
      TriggerByte(env, m, amble[0]);
    } else {
      FeedAmblePrefix(env, m, k - 1);
      Advance(env, Machine(Accumulator(m.state), k - 1, m.queries), amble[k - 1]);
    }
  }

  /** A whole marker fed in DATA or NOTE becomes one block write and flips the mode. */
  lemma FeedAmble(env: Env, m: Machine)
    requires env.Valid() && (m.state == Data || m.state == Note) && m.pos == 0
    ensures Feed(env, m, Amble(env, m.state)) ==
      Outcome(Machine(Flip(Accumulator(m.state)), 0, m.queries + 1),
              [Block(Amble(env, m.state), Route(env.gate(m.queries)))])
  {
    var amble := Amble(env, m.state);
    var n := |amble|;
    var whole := Outcome(Machine(Flip(Accumulator(m.state)), 0, m.queries + 1),
                         [Block(amble, Route(env.gate(m.queries)))]);
    if n == 1 {
      assert Feed(env, m, amble) == whole by {
        assert amble == [amble[0]];
        FeedOne(env, m, amble[0]);
        TriggerByte(env, m, amble[0]);
      }
    } else {
      FeedAmbleLong(env, m);
    }
  }

  /** FeedAmble for a marker of two bytes or more: the prefix accumulates, the last byte completes it. */
  lemma FeedAmbleLong(env: Env, m: Machine)
    requires env.Valid() && (m.state == Data || m.state == Note) && m.pos == 0
    requires |Amble(env, m.state)| > 1
    ensures Feed(env, m, Amble(env, m.state)) ==
      Outcome(Machine(Flip(Accumulator(m.state)), 0, m.queries + 1),
              [Block(Amble(env, m.state), Route(env.gate(m.queries)))])
  {
    var amble := Amble(env, m.state);
    var n := |amble|;
    var m1 := Machine(Accumulator(m.state), n - 1, m.queries);
    assert amble[..n - 1] + [amble[n - 1]] == amble;
    FeedAmblePrefix(env, m, n - 1);
    FullMatch(env, m1, amble[n - 1]);
    FeedOne(env, m1, amble[n - 1]);
    FeedThen(env, m, amble[..n - 1], [amble[n - 1]], Outcome(m1, []), Step(env, m1, amble[n - 1]));
  }

  /** The preamble, then a payload without the postamble's first byte. */
  lemma PreambleThenPayload(env: Env, q: nat, payload: seq<byte>)
    requires env.Valid()
    requires forall i :: 0 <= i < |payload| ==> payload[i] != env.post[0]
    ensures Feed(env, Machine(Data, 0, q), env.pre + payload) ==
      Outcome(Machine(Note, 0, q + 1 + |payload|), [Block(env.pre, Route(env.gate(q)))] + Replay(env.gate, payload, q + 1))
  {
    var n1 := Machine(Note, 0, q + 1);
    FeedAmble(env, Machine(Data, 0, q));
    FeedPlain(env, n1, payload);
    FeedThen(env, Machine(Data, 0, q), env.pre, payload,
      Outcome(n1, [Block(env.pre, Route(env.gate(q)))]),
      Outcome(Machine(Note, 0, q + 1 + |payload|), Replay(env.gate, payload, q + 1)));
  }

  /** A note passes through whole: the preamble as one block, a payload without the
      postamble's first byte byte for byte through the decoder, the postamble as one
      block, and the stream is back in DATA. */
  lemma MarkerPassThrough(env: Env, q: nat, payload: seq<byte>)
    requires env.Valid()
    requires forall i :: 0 <= i < |payload| ==> payload[i] != env.post[0]
    ensures Feed(env, Machine(Data, 0, q), env.pre + payload + env.post) ==
      Outcome(Machine(Data, 0, q + |payload| + 2), NoteEvents(env, q, payload))
    ensures Bytes(NoteEvents(env, q, payload)) == env.pre + payload + env.post
  {
    var n2 := Machine(Note, 0, q + 1 + |payload|);
    PreambleThenPayload(env, q, payload);
    FeedAmble(env, n2);
    FeedThen(env, Machine(Data, 0, q), env.pre + payload, env.post,
      Outcome(n2, [Block(env.pre, Route(env.gate(q)))] + Replay(env.gate, payload, q + 1)),
      Outcome(Machine(Data, 0, q + |payload| + 2), [Block(env.post, Route(env.gate(q + 1 + |payload|)))]));
    NoteBytes(env, q, payload);
  }

  /** What a note produces: two blocks around the payload's hand-offs. */
  function NoteEvents(env: Env, q: nat, payload: seq<byte>): seq<Event> {
    [Block(env.pre, Route(env.gate(q)))] + Replay(env.gate, payload, q + 1)
    + [Block(env.post, Route(env.gate(q + 1 + |payload|)))]
  }

  lemma NoteBytes(env: Env, q: nat, payload: seq<byte>)
    ensures Bytes(NoteEvents(env, q, payload)) == env.pre + payload + env.post
  {
    var b1 := [Block(env.pre, Route(env.gate(q)))];
    var b2 := [Block(env.post, Route(env.gate(q + 1 + |payload|)))];
    var r := Replay(env.gate, payload, q + 1);
    SingleHandOff(env.gate, b1[0], q);
    SingleHandOff(env.gate, b2[0], q + 1 + |payload|);
    ReplayFacts(env.gate, payload, q + 1);
    BytesAppend(b1, r);
    BytesAppend(b1 + r, b2);
  }

  // ---- What the matcher does not do ----

  /** The matcher restarts only at the rejected byte, so a marker that overlaps
      itself can be missed: with preamble [1, 1, 2], the input [1, 1, 1, 2] contains
      the preamble at offset 1, yet all four bytes go to the decoder and no note begins. */
  lemma OverlapMissed(env: Env, q: nat)
    requires env.Valid() && env.pre == [1, 1, 2]
    ensures Feed(env, Machine(Data, 0, q), [1, 1, 1, 2]) == Outcome(Machine(Data, 0, q + 4), Replay(env.gate, [1, 1, 1, 2], q))
  {
    var m := Machine(Data, 0, q);
    var third := Outcome(Machine(Preamble, 1, q + 2), Replay(env.gate, [1, 1], q));
    var fourth := Outcome(Machine(Data, 0, q + 4), Replay(env.gate, [1], q + 2) + [Decoded(2, Route(env.gate(q + 3)))]);
    OverlapPrefix(env, q);
    OverlapThirdByte(env, q);
    FeedOne(env, Machine(Preamble, 2, q), 1);
    OverlapInput(1, 2);
    FeedThen(env, m, [1, 1], [1], Outcome(Machine(Preamble, 2, q), []), third);
    OverlapFourthByte(env, q);
    FeedOne(env, third.m, 2);
    FeedThen(env, m, [1, 1, 1], [2], Outcome(third.m, [] + third.events), fourth);
    OverlapReplay(env.gate, q);
  }

  lemma OverlapPrefix(env: Env, q: nat)
    requires env.Valid() && env.pre == [1, 1, 2]
    ensures Feed(env, Machine(Data, 0, q), [1, 1]) == Outcome(Machine(Preamble, 2, q), [])
  {
    assert env.pre[..2] == [1, 1];
    FeedAmblePrefix(env, Machine(Data, 0, q), 2);
  }

  lemma OverlapInput(x: byte, y: byte)
    ensures [x, x] + [x] == [x, x, x]
    ensures [x, x, x] + [y] == [x, x, x, y]
  {
  }

  lemma OverlapReplay(gate: nat -> bool, q: nat)
    ensures ([] + Replay(gate, [1, 1], q)) + (Replay(gate, [1], q + 2) + [Decoded(2, Route(gate(q + 3)))])
      == Replay(gate, [1, 1, 1, 2], q)
  {
    ReplaySnoc(gate, [1, 1], 1, q);
    ReplaySnoc(gate, [1, 1, 1], 2, q);
    OverlapInput(1, 2);
  }

  /** The third byte of [1, 1, 1, 2] breaks the match at cursor 2; it restarts the preamble. */
  lemma OverlapThirdByte(env: Env, q: nat)
    requires env.Valid() && env.pre == [1, 1, 2]
    ensures Step(env, Machine(Preamble, 2, q), 1) == Outcome(Machine(Preamble, 1, q + 2), Replay(env.gate, [1, 1], q))
  {
    assert env.pre[..2] == [1, 1];
    Mismatch(env, Machine(Preamble, 2, q), 1);
    TriggerByte(env, Machine(Data, 0, q + 2), 1);
  }

  /** The fourth byte breaks the restarted match at cursor 1 and is itself ordinary data. */
  lemma OverlapFourthByte(env: Env, q: nat)
    requires env.Valid() && env.pre == [1, 1, 2]
    ensures Step(env, Machine(Preamble, 1, q + 2), 2) ==
      Outcome(Machine(Data, 0, q + 4), Replay(env.gate, [1], q + 2) + [Decoded(2, Route(env.gate(q + 3)))])
  {
    assert env.pre[..1] == [1];
    Mismatch(env, Machine(Preamble, 1, q + 2), 2);
    OrdinaryByte(env, Machine(Data, 0, q + 3), 2);
  }
}
