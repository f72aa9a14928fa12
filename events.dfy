/** The observable effects of AnsiHtmlOutputStream, in the order they happen:
    calls into the processor, hand-offs of bytes, and the closing of the superclass. */
module Events {

  /** One input or marker byte, unsigned. The Java comparison of an `int` with a
      signed `byte` agrees with this one for marker bytes below 128, as in the ASCII
      console-note markers. */
  type byte = x: int | 0 <= x < 256

  /** The two streams the inherited `out` field can point at. */
  datatype Sink = LogOutput | NullStream

  /** Where `out` points once `processor.isWritingEnabled()` has answered `enabled`. */
  function Route(enabled: bool): (s: Sink)
    ensures s == LogOutput <==> enabled
  {
    if enabled then LogOutput else NullStream
  }

  datatype Event =
    | InitTags                             // processor.initTags()
    | Decoded(b: byte, sink: Sink)         // super.write(b): one byte into the ANSI decoder, writing to sink
    | Block(bytes: seq<byte>, sink: Sink)  // out.write(amble): a whole marker, straight to sink
    | Finish                               // processor.finish()
    | SuperClose(sink: Sink)               // super.close(), while out points at sink
  {
    /** A write that was preceded by one query of the gate. */
    predicate IsHandOff() { Decoded? || Block? }

    /** An event that only close() produces. */
    predicate IsCloseHook() { Finish? || SuperClose? }
  }

  /** The bytes handed on by a log, flattened in order. */
  function Bytes(es: seq<Event>): seq<byte>
    decreases |es|
  {
    if es == [] then []
    else
      (match es[0]
       case Decoded(b, _) => [b]
       case Block(bs, _) => bs
       case _ => []) + Bytes(es[1..])
  }

  /** The number of hand-offs in a log. */
  function HandOffs(es: seq<Event>): nat
    decreases |es|
  {
    if es == [] then 0 else (if es[0].IsHandOff() then 1 else 0) + HandOffs(es[1..])
  }

  /** The number of initTags() calls in a log. */
  function InitCalls(es: seq<Event>): nat
    decreases |es|
  {
    if es == [] then 0 else (if es[0] == InitTags then 1 else 0) + InitCalls(es[1..])
  }

  /** Every hand-off of `es` goes to the sink chosen by its own answer of the gate,
      the answers being numbered from `q` in the order the hand-offs happen. */
  predicate Gated(gate: nat -> bool, es: seq<Event>, q: nat)
    decreases |es|
  {
    es == [] ||
    if es[0].IsHandOff() then es[0].sink == Route(gate(q)) && Gated(gate, es[1..], q + 1)
    else Gated(gate, es[1..], q)
  }

  /** No event of `es` comes from close(). */
  predicate CloseFree(es: seq<Event>) {
    forall i :: 0 <= i < |es| ==> !es[i].IsCloseHook()
  }

  /** `es` holds no close() event, and its hand-offs used the gate's answers
      q, q + 1, ..., q' - 1, one each, in order. */
  predicate Logged(gate: nat -> bool, es: seq<Event>, q: nat, q': nat) {
    q' == q + HandOffs(es) && Gated(gate, es, q) && CloseFree(es)
  }

  /** The log with the events of close() removed. */
  function WithoutCloseHooks(es: seq<Event>): seq<Event>
    decreases |es|
  {
    if es == [] then []
    else (if es[0].IsCloseHook() then [] else [es[0]]) + WithoutCloseHooks(es[1..])
  }

  lemma {:induction false} BytesAppend(a: seq<Event>, c: seq<Event>)
    ensures Bytes(a + c) == Bytes(a) + Bytes(c)
    decreases |a|
  {
    if a == [] {
      assert a + c == c;
    } else {
      assert (a + c)[1..] == a[1..] + c;
      BytesAppend(a[1..], c);
    }
  }

  lemma {:induction false} HandOffsAppend(a: seq<Event>, c: seq<Event>)
    ensures HandOffs(a + c) == HandOffs(a) + HandOffs(c)
    decreases |a|
  {
    if a == [] {
      assert a + c == c;
    } else {
      assert (a + c)[1..] == a[1..] + c;
      HandOffsAppend(a[1..], c);
    }
  }

  lemma {:induction false} InitCallsAppend(a: seq<Event>, c: seq<Event>)
    ensures InitCalls(a + c) == InitCalls(a) + InitCalls(c)
    decreases |a|
  {
    if a == [] {
      assert a + c == c;
    } else {
      assert (a + c)[1..] == a[1..] + c;
      InitCallsAppend(a[1..], c);
    }
  }

  /** Gating of a concatenation: the second part's answers are numbered after the first part's hand-offs. */
  lemma {:induction false} GatedAppend(gate: nat -> bool, a: seq<Event>, c: seq<Event>, q: nat)
    ensures Gated(gate, a + c, q) <==> Gated(gate, a, q) && Gated(gate, c, q + HandOffs(a))
    decreases |a|
  {
    if a == [] {
      assert a + c == c;
    } else {
      assert (a + c)[1..] == a[1..] + c;
      GatedAppend(gate, a[1..], c, if a[0].IsHandOff() then q + 1 else q);
    }
  }

  lemma {:induction false} WithoutCloseHooksAppend(a: seq<Event>, c: seq<Event>)
    ensures WithoutCloseHooks(a + c) == WithoutCloseHooks(a) + WithoutCloseHooks(c)
    decreases |a|
  {
    if a == [] {
      assert a + c == c;
    } else {
      assert (a + c)[1..] == a[1..] + c;
      WithoutCloseHooksAppend(a[1..], c);
    }
  }

  /** A log without close events is left as it is. */
  lemma {:induction false} CloseFreeKept(es: seq<Event>)
    requires CloseFree(es)
    ensures WithoutCloseHooks(es) == es
    decreases |es|
  {
    if es != [] {
      assert !es[0].IsCloseHook();
      CloseFreeKept(es[1..]);
    }
  }

  /** Removing the events of close() changes neither the bytes, nor the hand-offs,
      nor the initTags() calls, nor the sinks chosen. */
  lemma {:induction false} CloseHooksInvisible(gate: nat -> bool, es: seq<Event>, q: nat)
    ensures Bytes(WithoutCloseHooks(es)) == Bytes(es)
    ensures HandOffs(WithoutCloseHooks(es)) == HandOffs(es)
    ensures InitCalls(WithoutCloseHooks(es)) == InitCalls(es)
    ensures Gated(gate, WithoutCloseHooks(es), q) <==> Gated(gate, es, q)
    decreases |es|
  {
    if es != [] {
      var head := if es[0].IsCloseHook() then [] else [es[0]];
      var q' := if es[0].IsHandOff() then q + 1 else q;
      CloseHooksInvisible(gate, es[1..], q');
      BytesAppend(head, WithoutCloseHooks(es[1..]));
      HandOffsAppend(head, WithoutCloseHooks(es[1..]));
      InitCallsAppend(head, WithoutCloseHooks(es[1..]));
      GatedAppend(gate, head, WithoutCloseHooks(es[1..]), q);
    }
  }

  lemma CloseFreeAppend(a: seq<Event>, c: seq<Event>)
    ensures CloseFree(a + c) <==> CloseFree(a) && CloseFree(c)
  {
    if CloseFree(a + c) {
      forall i | 0 <= i < |a| ensures !a[i].IsCloseHook() {
        assert (a + c)[i] == a[i];
      }
      forall i | 0 <= i < |c| ensures !c[i].IsCloseHook() {
        assert (a + c)[|a| + i] == c[i];
      }
    }
  }

  // ---- Sequence bookkeeping, kept apart so that the proofs above stay small ----

  /** The last element of a concatenation with a nonempty right part. */
  lemma SnocSplit<X>(a: seq<X>, c: seq<X>)
    requires c != []
    ensures (a + c)[..|a + c| - 1] == a + c[..|c| - 1]
    ensures (a + c)[|a + c| - 1] == c[|c| - 1]
  {
  }

  /** Two lossless stages chained: what the first kept pending, the second resolved. */
  lemma Chain<X>(x: seq<X>, y: seq<X>, p: seq<X>, q: seq<X>, a: seq<X>, init: seq<X>, last: X)
    requires x + p == a + init && y + q == p + [last]
    ensures (x + y) + q == a + (init + [last])
  {
    calc {
      (x + y) + q;
      x + (y + q);
      x + (p + [last]);
      (x + p) + [last];
    }
  }

  lemma Assoc<X>(a: seq<X>, b: seq<X>, c: seq<X>)
    ensures (a + b) + c == a + (b + c)
  {
  }

  lemma LoggedAppend(gate: nat -> bool, a: seq<Event>, c: seq<Event>, q: nat, q1: nat, q2: nat)
    requires Logged(gate, a, q, q1) && Logged(gate, c, q1, q2)
    ensures Logged(gate, a + c, q, q2)
  {
    HandOffsAppend(a, c);
    GatedAppend(gate, a, c, q);
    CloseFreeAppend(a, c);
  }

  lemma ConsSplit<X>(s: seq<X>)
    requires s != []
    ensures [s[0]] + s[1..] == s
  {
  }
}
