/** AnsiHtmlOutputStream: the stream object whose fields write(int),
    collectAmbleCharacter, the two routing helpers and close() update in place.
    Each method is proved against the functions of module AmbleMachine. */
module AnsiHtml {
  import opened Events
  import opened AmbleMachine
  import opened AmbleProperties

  /** `T` stands for AnsiAttributeElement, whose structure plays no part here. */
  class AnsiHtmlOutputStream<T> {
    /** ConsoleNote.PREAMBLE, ConsoleNote.POSTAMBLE and the answers of processor.isWritingEnabled(). */
    const env: Env
    var state: State
    var amblePos: nat
    /** The inherited `out` field: where super.write and the block writes go. */
    var out: Sink
    /** How many times processor.isWritingEnabled() was asked. */
    var queries: nat
    /** Everything the stream did, in order. */
    var trace: seq<Event>
    /** The tags to open, copied from the constructor argument and never changed. */
    const openTags: seq<T>
    /** Every byte a caller has written. */
    ghost var input: seq<byte>

    function M(): Machine
      reads this
    {
      Machine(state, amblePos, queries)
    }

    /** `out` points where the latest query said (at first, at the wrapped stream). */
    ghost predicate Routed()
      reads this
    {
      out == if queries == 0 then LogOutput else Route(env.gate(queries - 1))
    }

    /** The object is in the state the machine reaches on the bytes written so far,
        and its log is the machine's log with the events of close() interleaved. */
    ghost predicate Valid()
      reads this
    {
      env.Valid() && Routed() &&
      Run(env, input) == Outcome(M(), WithoutCloseHooks(trace))
    }

    constructor (env: Env, tagsToOpen: seq<T>)
      requires env.Valid()
      ensures Valid()
      ensures this.env == env && openTags == tagsToOpen
      ensures state == Init && amblePos == 0 && out == LogOutput && queries == 0
      ensures trace == [] && input == []
    {
      this.env := env;
      state := Init;
      amblePos := 0;
      out := LogOutput;
      queries := 0;
      trace := [];
      openTags := tagsToOpen;
      input := [];
    }

    /** A copy of the open tags. */
    method GetOpenTags() returns (tags: seq<T>)
      ensures tags == openTags
    {
      tags := openTags;
    }

    /** write(int) as a caller sees it: the byte is recorded as written and dispatched. */
    method Write(b: byte)
      requires Valid()
      modifies this`state, this`amblePos, this`out, this`queries, this`trace, this`input
      ensures Valid()
      ensures input == old(input) + [b]
      ensures M() == Step(env, old(M()), b).m
      ensures trace == old(trace) + Step(env, old(M()), b).events
    {
      ghost var before := Run(env, input);
      ghost var m0 := M();
      ghost var t0 := trace;
      input := input + [b];
      ghost var depth := Dispatch(b);
      ghost var s := Step(env, m0, b);
      WriteKeepsValid(env, old(input), b, before, m0, s, t0);
    }

    /** The body of write(int), which collectAmbleCharacter re-enters on a mismatch:
        INIT runs initTags() first, then the mode decides. Its `depth` is the number of
        write(int) frames, this one included, that were open at once. */
    method Dispatch(b: byte) returns (ghost depth: nat)
      requires env.Valid() && Routed() && Between(env, M())
      modifies this`state, this`amblePos, this`out, this`queries, this`trace
      ensures Routed()
      ensures M() == Step(env, old(M()), b).m
      ensures trace == old(trace) + Step(env, old(M()), b).events
      ensures depth == if Mismatches(env, old(M()), b) then 2 else 1
      decreases if Mismatches(env, M(), b) then 1 else 0, 1
    {
      ghost var m0 := M();
      ghost var t0 := trace;
      if state == Init {
        trace := trace + [InitTags];  // processor.initTags()
        state := Data;
      }
      ghost var t1 := trace;
      ghost var mid := M();
      StepCases(env, mid, b);
      ghost var nested := 0;
      if state == Data {
        if b == env.pre[0] {
          state := Preamble;
          amblePos := 0;
          nested := CollectAmbleCharacter(b, env.pre);
        } else {
          ProcessAndWrite(b);
        }
      } else if state == Note {
        if b == env.post[0] {
          state := Postamble;
          amblePos := 0;
          nested := CollectAmbleCharacter(b, env.post);
        } else {
          ProcessAndWrite(b);
        }
      } else if state == Preamble {
        nested := CollectAmbleCharacter(b, env.pre);
      } else {
        nested := CollectAmbleCharacter(b, env.post);
      }
      depth := 1 + nested;
      DispatchClose(env, m0, b, t0, t1, mid, M(), trace);
    }

    /** collectAmbleCharacter(b, amble): compare with amble[amblePos]; on a mismatch
        replay the matched prefix and re-dispatch `b`, on the last byte write the
        marker whole, otherwise move the cursor on. Its `depth` is the number of
        write(int) frames it opened. */
    method CollectAmbleCharacter(b: byte, amble: seq<byte>) returns (ghost depth: nat)
      requires env.Valid() && Routed() && Accumulating(state)
      requires amble == Amble(env, state) && amblePos < |amble|
      modifies this`state, this`amblePos, this`out, this`queries, this`trace
      ensures Routed()
      ensures M() == Collect(env, old(M()), b).m
      ensures trace == old(trace) + Collect(env, old(M()), b).events
      ensures depth == if Mismatches(env, old(M()), b) then 1 else 0
      decreases if Mismatches(env, M(), b) then 1 else 0, 0
    {
      ghost var m0 := M();
      ghost var t0 := trace;
      if b != amble[amblePos] {
        // Not a marker after all: hand the matched prefix to the decoder.
        ReplayPrefix(amble);
        ghost var t1 := trace;
        state := if state == Postamble then Note else Data;
        amblePos := 0;
        ghost var again := M();
        assert again == Machine(Resume(m0.state), 0, m0.queries + m0.pos);
        assert Mismatches(env, m0, b);
        depth := Dispatch(b);
        MismatchClose(env, m0, b, t0, t1, again, M(), trace);
      } else if amblePos == |amble| - 1 {
        // A whole marker: one block, straight to the chosen sink.
        CollectFull(env, m0, b);
        WriteToOutputStream(amble);
        state := if state == Postamble then Data else Note;
        amblePos := 0;
        depth := 0;
      } else {
        CollectAdvance(env, m0, b);
        amblePos := amblePos + 1;
        depth := 0;
      }
    }

    /** The replay loop of collectAmbleCharacter: each matched byte of the marker goes
        to the decoder in order, after its own query. */
    method ReplayPrefix(amble: seq<byte>)
      requires Routed() && amblePos <= |amble|
      modifies this`out, this`queries, this`trace
      ensures Routed()
      ensures queries == old(queries) + amblePos
      ensures trace == old(trace) + Replay(env.gate, amble[..amblePos], old(queries))
    {
      var i := 0;
      while i < amblePos
        invariant 0 <= i <= amblePos
        invariant queries == old(queries) + i
        invariant trace == old(trace) + Replay(env.gate, amble[..i], old(queries))
        invariant Routed()
      {
        ghost var before := trace;
        ProcessAndWrite(amble[i]);
        ReplayExtend(env.gate, before, old(trace), amble, i, old(queries));
        i := i + 1;
      }
    }

    /** processAndwriteToOutputStream(b): ask the gate, point `out`, hand `b` to the decoder. */
    method ProcessAndWrite(b: byte)
      requires Routed()
      modifies this`out, this`queries, this`trace
      ensures Routed()
      ensures out == Route(env.gate(old(queries))) && queries == old(queries) + 1
      ensures trace == old(trace) + [Decoded(b, out)]
    {
      out := Route(env.gate(queries));
      queries := queries + 1;
      trace := trace + [Decoded(b, out)];
    }

    /** writeToOutputStream(bs): ask the gate, point `out`, write `bs` to it as one block. */
    method WriteToOutputStream(bs: seq<byte>)
      requires Routed()
      modifies this`out, this`queries, this`trace
      ensures Routed()
      ensures out == Route(env.gate(old(queries))) && queries == old(queries) + 1
      ensures trace == old(trace) + [Block(bs, out)]
    {
      out := Route(env.gate(queries));
      queries := queries + 1;
      trace := trace + [Block(bs, out)];
    }

    /** close(): processor.finish(), then super.close(); a pending marker prefix stays unwritten. */
    method Close()
      requires Valid()
      modifies this`trace
      ensures Valid()
      ensures trace == old(trace) + [Finish, SuperClose(out)]
    {
      ghost var t0 := trace;
      ghost var run := Run(env, input);
      trace := trace + [Finish];
      trace := trace + [SuperClose(out)];
      CloseKeepsValid(t0, out, trace);
      assert run == Outcome(M(), WithoutCloseHooks(trace));
    }
  }

  /** The bookkeeping step of Write: one more byte of input is one more Step. */
  lemma WriteKeepsValid(env: Env, input: seq<byte>, b: byte, before: Outcome, m0: Machine, s: Outcome, t0: seq<Event>)
    requires env.Valid() && before == Run(env, input)
    requires before == Outcome(m0, WithoutCloseHooks(t0))
    requires s == Step(env, m0, b)
    ensures Run(env, input + [b]) == Outcome(s.m, WithoutCloseHooks(t0 + s.events))
  {
    StepSound(env, m0, b);
    SnocSplit(input, [b]);
    assert (input + [b])[..|input|] == input;
    WithoutCloseHooksAppend(t0, s.events);
    CloseFreeKept(s.events);
  }

  // ---- The outcomes of Step and Collect, branch by branch, so that the method
  //      proofs need not unfold them ----

  /** write(int) past its INIT prelude: what the mode and the byte select. */
  lemma StepCases(env: Env, m: Machine, b: byte)
    requires env.Valid() && Between(env, m) && m.state != Init
    ensures !Accumulating(m.state) ==> !Mismatches(env, m, b)
    ensures Step(env, m, b) ==
      if !Accumulating(m.state) then
        if b == Amble(env, m.state)[0] then Collect(env, Machine(Accumulator(m.state), 0, m.queries), b)
        else Outcome(m.(queries := m.queries + 1), [Decoded(b, Route(env.gate(m.queries)))])
      else Collect(env, m, b)
    ensures !Accumulating(m.state) && b == Amble(env, m.state)[0] ==>
      !Mismatches(env, Machine(Accumulator(m.state), 0, m.queries), b)
  {
  }

  /** The INIT prelude: one initTags() call, then what DATA does. */
  lemma DispatchClose(env: Env, m: Machine, b: byte, t0: seq<Event>, t1: seq<Event>, mid: Machine, now: Machine, t: seq<Event>)
    requires env.Valid() && Between(env, m)
    requires mid == (if m.state == Init then m.(state := Data) else m)
    requires t1 == t0 + (if m.state == Init then [InitTags] else [])
    requires now == Step(env, mid, b).m && t == t1 + Step(env, mid, b).events
    ensures now == Step(env, m, b).m && t == t0 + Step(env, m, b).events
  {
    if m.state == Init {
      Assoc(t0, [InitTags], Step(env, mid, b).events);
    }
  }

  /** One more replayed byte extends the log by its Replay event. */
  lemma ReplayExtend(gate: nat -> bool, before: seq<Event>, t0: seq<Event>, amble: seq<byte>, i: nat, q: nat)
    requires i < |amble| && before == t0 + Replay(gate, amble[..i], q)
    ensures before + [Decoded(amble[i], Route(gate(q + i)))] == t0 + Replay(gate, amble[..i + 1], q)
  {
    ReplaySnoc(gate, amble[..i], amble[i], q);
    assert amble[..i + 1] == amble[..i] + [amble[i]];
  }

  /** A mismatch: the replayed prefix, then whatever the re-dispatched byte did. */
  lemma MismatchClose(env: Env, m: Machine, b: byte, t0: seq<Event>, t1: seq<Event>, again: Machine, now: Machine, t: seq<Event>)
    requires env.Valid() && Mismatches(env, m, b)
    requires t1 == t0 + Replay(env.gate, Amble(env, m.state)[..m.pos], m.queries)
    requires again == Machine(Resume(m.state), 0, m.queries + m.pos)
    requires now == Step(env, again, b).m && t == t1 + Step(env, again, b).events
    ensures now == Collect(env, m, b).m && t == t0 + Collect(env, m, b).events
  {
    Assoc(t0, Replay(env.gate, Amble(env, m.state)[..m.pos], m.queries), Step(env, again, b).events);
  }

  /** A whole marker matched. */
  lemma CollectFull(env: Env, m: Machine, b: byte)
    requires env.Valid() && Accumulating(m.state) && m.pos == |Amble(env, m.state)| - 1
    requires b == Amble(env, m.state)[m.pos]
    ensures !Mismatches(env, m, b)
    ensures Collect(env, m, b) ==
      Outcome(Machine(Flip(m.state), 0, m.queries + 1), [Block(Amble(env, m.state), Route(env.gate(m.queries)))])
  {
  }

  /** One more marker byte matched. */
  lemma CollectAdvance(env: Env, m: Machine, b: byte)
    requires env.Valid() && Accumulating(m.state) && m.pos < |Amble(env, m.state)| - 1
    requires b == Amble(env, m.state)[m.pos]
    ensures !Mismatches(env, m, b)
    ensures Collect(env, m, b) == Outcome(m.(pos := m.pos + 1), [])
  {
  }

  /** close() adds nothing the machine sees. */
  lemma CloseKeepsValid(t0: seq<Event>, sink: Sink, t: seq<Event>)
    requires t == t0 + [Finish] + [SuperClose(sink)]
    ensures WithoutCloseHooks(t) == WithoutCloseHooks(t0)
  {
    WithoutCloseHooksAppend(t0, [Finish]);
    WithoutCloseHooksAppend(t0 + [Finish], [SuperClose(sink)]);
    assert WithoutCloseHooks([Finish]) == [];
    assert WithoutCloseHooks([SuperClose(sink)]) == [];
  }

  // ---- What holds of a stream between calls ----

  /** Everything written so far was handed on, in order, except the marker prefix
      still being matched; a close() leaves that prefix unwritten. */
  lemma StreamLossless<T>(s: AnsiHtmlOutputStream<T>)
    requires s.Valid()
    ensures Bytes(s.trace) + Pending(s.env, s.M()) == s.input
  {
    RunLossless(s.env, s.input);
    CloseHooksInvisible(s.env.gate, s.trace, 0);
  }

  /** Every hand-off went where its own answer of isWritingEnabled() said, and the
      gate was asked exactly once per hand-off. */
  lemma StreamGated<T>(s: AnsiHtmlOutputStream<T>)
    requires s.Valid()
    ensures Gated(s.env.gate, s.trace, 0) && s.queries == HandOffs(s.trace)
  {
    RunGated(s.env, s.input);
    CloseHooksInvisible(s.env.gate, s.trace, 0);
  }

  /** initTags() ran once if anything was written and never otherwise, and the
      stream is in INIT exactly until the first write. */
  lemma StreamInitOnce<T>(s: AnsiHtmlOutputStream<T>)
    requires s.Valid()
    ensures InitCalls(s.trace) == (if s.input == [] then 0 else 1)
    ensures s.state == Init <==> s.input == []
  {
    RunInitOnce(s.env, s.input);
    CloseHooksInvisible(s.env.gate, s.trace, 0);
  }

  /** mode and amblePos agree, and the bytes being matched are the latest written. */
  lemma StreamCursor<T>(s: AnsiHtmlOutputStream<T>)
    requires s.Valid()
    ensures Between(s.env, s.M())
    ensures s.amblePos <= |s.input| && s.input[|s.input| - s.amblePos..] == Pending(s.env, s.M())
  {
    RunCursor(s.env, s.input);
  }
}
