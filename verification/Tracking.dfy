/**
 The nesting checker. A stack of open elements decides call by call whether a run
 of calls is well nested; the results are that it accepts exactly the flattenings
 of plans, so that what an accepted run writes is a sequence of complete objects.
 */
module Tracking {
  import opened MsgPack
  import opened Encoding
  import opened Plans
  import opened Drafts

  datatype What = Compound(kind: Kind) | Raw(bin: bool)

  /** `mpack_track_element_t`. */
  datatype Element = Element(what: What, left: u32, builder: bool, keyNeedsValue: bool)

  datatype Verdict = Refused | On(stack: seq<Element>)

  /** Unsigned decrement; below zero it would wrap. */
  function Decrement(n: u32, m: u32): u32 {
    (n + U32 - m) % U32
  }

  /** One more element in the innermost open element. */
  function ElementOn(stack: seq<Element>): Verdict {
    if stack == [] then On(stack) else
    var l := |stack| - 1;
    var e := stack[l];
    if e.what.Raw? then Refused
    else if !e.builder && e.left == 0 && !e.keyNeedsValue then Refused
    else if e.what == Compound(MapKind) && !e.keyNeedsValue then On(stack[l := e.(keyNeedsValue := true)])
    else
      var f := if e.what == Compound(MapKind) then e.(keyNeedsValue := false) else e;
      On(stack[l := if e.builder then f else f.(left := Decrement(e.left, 1))])
  }

  function BytesOn(stack: seq<Element>, n: nat): Verdict {
    if stack == [] || n >= U32 then Refused else
    var l := |stack| - 1;
    var e := stack[l];
    if e.what.Compound? || e.left < n then Refused else On(stack[l := e.(left := Decrement(e.left, n))])
  }

  function PopOn(stack: seq<Element>, what: What, builder: bool): Verdict {
    if stack == [] then Refused else
    var e := stack[|stack| - 1];
    if e == Element(what, 0, builder, false) then On(stack[..|stack| - 1]) else Refused
  }

  function PushOn(v: Verdict, e: Element): Verdict {
    if v.Refused? then v else On(v.stack + [e])
  }

  /** What a call does to the open elements. */
  function CallOn(stack: seq<Element>, c: Call): Verdict {
    match c
    case Put(_) => ElementOn(stack)
    case PutStr(_) => ElementOn(stack)
    case StartRaw(bin, n) => PushOn(ElementOn(stack), Element(Raw(bin), n, false, false))
    case Bytes(s) => BytesOn(stack, |s|)
    case FinishRaw(bin) => PopOn(stack, Raw(bin), false)
    case Start(kind, n) => PushOn(ElementOn(stack), Element(Compound(kind), n, false, false))
    case Finish(kind) => PopOn(stack, Compound(kind), false)
    case Build(kind) => PushOn(ElementOn(stack), Element(Compound(kind), 0, true, false))
    case Complete(kind) => PopOn(stack, Compound(kind), true)
  }

  function CallsOn(stack: seq<Element>, cs: seq<Call>): Verdict
    decreases |cs|
  {
    if cs == [] then On(stack) else
    match CallsOn(stack, cs[..|cs| - 1])
    case Refused => Refused
    case On(s) => CallOn(s, cs[|cs| - 1])
  }

  // ---- the checker

  class Track {
    var elements: array<Element>
    var count: nat

    ghost predicate Valid()
      reads this
    {
      count <= elements.Length && elements.Length > 0
    }

    ghost function Stack(): seq<Element>
      reads this, elements
      requires Valid()
    {
      elements[..count]
    }

    constructor ()
      ensures Valid() && Stack() == [] && fresh(elements) && elements.Length == 8
    {
      elements := new Element[8](_ => Element(Raw(false), 0, false, false));
      count := 0;
    }

    /** `mpack_track_grow`. */
    method Grow()
      requires Valid() && count == elements.Length
      modifies this`elements
      ensures Valid() && count < elements.Length && fresh(elements) && Stack() == old(Stack())
      ensures elements.Length == 2 * old(elements.Length)
    {
      var more := new Element[elements.Length * 2](_ => Element(Raw(false), 0, false, false));
      forall i | 0 <= i < count { more[i] := elements[i]; }
      assert more[..count] == elements[..count];
      elements := more;
    }

    /** `mpack_track_push` and `mpack_track_push_builder`. */
    method Push(e: Element)
      requires Valid()
      modifies this, elements
      ensures Valid() && (elements == old(elements) || fresh(elements)) && Stack() == old(Stack()) + [e]
    {
      if count == elements.Length { Grow(); }
      elements[count] := e;
      count := count + 1;
    }

    /** `mpack_track_pop_impl`. */
    method Pop(what: What, builder: bool) returns (error: Error)
      requires Valid()
      modifies this`count
      ensures Valid() && Outcome(error, old(Stack()), PopOn(old(Stack()), what, builder))
    {
      if count == 0 { return Bug; }
      var e := elements[count - 1];
      if e.what != what { return Bug; }
      if e.keyNeedsValue { return Bug; }
      if e.left != 0 { return Bug; }
      if e.builder != builder { return Bug; }
      count := count - 1;
      return Ok;
    }

    /** `mpack_track_peek_element` and `mpack_track_element`. */
    method TrackElement() returns (error: Error)
      requires Valid()
      modifies elements
      ensures Outcome(error, old(Stack()), ElementOn(old(Stack())))
    {
      if count == 0 { return Ok; }
      var e := elements[count - 1];
      if !e.what.Compound? { return Bug; }
      if !e.builder && e.left == 0 && !e.keyNeedsValue { return Bug; }
      if e.what.kind == MapKind {
        if !e.keyNeedsValue {
          elements[count - 1] := e.(keyNeedsValue := true);
          return Ok;
        }
        e := e.(keyNeedsValue := false);
      }
      if !e.builder { e := e.(left := Decrement(e.left, 1)); }
      elements[count - 1] := e;
      return Ok;
    }

    /** `mpack_track_bytes`. */
    method TrackBytes(n: nat) returns (error: Error)
      requires Valid()
      modifies elements
      ensures Outcome(error, old(Stack()), BytesOn(old(Stack()), n))
    {
      if n >= U32 { return Bug; }
      if count == 0 { return Bug; }
      var e := elements[count - 1];
      if e.what.Compound? { return Bug; }
      if e.left < n { return Bug; }
      elements[count - 1] := e.(left := Decrement(e.left, n));
      return Ok;
    }

    /** Refused calls are reported and change nothing. */
    ghost predicate Outcome(error: Error, was: seq<Element>, v: Verdict)
      reads this, elements
      requires Valid()
    {
      if v.On? then error == Ok && Stack() == v.stack else error == Bug && Stack() == was
    }

    /** The checks of one call on a writer or reader. */
    method Check(c: Call) returns (error: Error)
      requires Valid()
      modifies this, elements
      ensures Valid() && (elements == old(elements) || fresh(elements))
      ensures Outcome(error, old(Stack()), CallOn(old(Stack()), c))
      ensures if CallOn(old(Stack()), c).Refused? then error == Bug && Stack() == old(Stack()) else error == Ok
    {
      match c
      case Put(_) => error := TrackElement();
      case PutStr(_) => error := TrackElement();
      case StartRaw(bin, n) =>
        error := TrackElement();
        if error == Ok { Push(Element(Raw(bin), n, false, false)); }
      case Bytes(s) => error := TrackBytes(|s|);
      case FinishRaw(bin) => error := Pop(Raw(bin), false);
      case Start(kind, n) =>
        error := TrackElement();
        if error == Ok { Push(Element(Compound(kind), n, false, false)); }
      case Finish(kind) => error := Pop(Compound(kind), false);
      case Build(kind) =>
        error := TrackElement();
        if error == Ok { Push(Element(Compound(kind), 0, true, false)); }
      case Complete(kind) => error := Pop(Compound(kind), true);
    }
  }

  // ---- what is accepted is well nested

  /** An open container or string: the call that opened it, and what was completed in it since. */
  datatype Level = Level(open: Call, done: seq<Plan>, parts: seq<seq<byte>>)

  function Spelled(levels: seq<Level>): seq<Call>
    requires forall l <- levels :: AllBalanced(l.done)
  {
    if levels == [] then [] else
    var l := levels[|levels| - 1];
    Spelled(levels[..|levels| - 1]) + ([l.open] + CallsAll(l.done) + Pieces(l.parts))
  }

  /** The element says how much of the level is still to come; `k` objects of it were completed or begun. */
  predicate Describes(e: Element, l: Level, k: nat) {
    match l.open
    case Start(kind, n) =>
      && l.parts == []
      && if kind == ArrayKind then k <= n && e == Element(Compound(kind), n - k, false, false)
         else k <= 2 * n && e == Element(Compound(kind), n - k / 2, false, k % 2 == 1)
    case Build(kind) => l.parts == [] && e == Element(Compound(kind), 0, true, kind == MapKind && k % 2 == 1)
    case StartRaw(bin, n) => l.done == [] && k == 0 && |Concat(l.parts)| <= n
        && e == Element(Raw(bin), n - |Concat(l.parts)|, false, false)
    case _ => false
  }

  /** The objects of the i-th level that were completed or begun; `begun` is for the innermost level. */
  function Objects(levels: seq<Level>, i: nat, begun: nat): nat
    requires i < |levels|
  {
    |levels[i].done| + if i < |levels| - 1 then 1 else begun
  }

  /**
   * A run of calls taken apart: complete plans, and then open levels, in each of which but the last an object was
   * begun.
   */
  ghost predicate Apart(cs: seq<Call>, base: seq<Plan>, levels: seq<Level>, stack: seq<Element>, begun: nat) {
    && AllBalanced(base) && (forall l <- levels :: AllBalanced(l.done)) && |levels| == |stack|
    && cs == CallsAll(base) + Spelled(levels)
    && (forall i: nat :: i < |levels| ==> Describes(stack[i], levels[i], Objects(levels, i, begun)))
  }

  /** `left` counts down without ever wrapping: what is taken from it is there. */
  lemma LeftNeverUnderflows(e: Element, l: Level, k: nat)
    requires Describes(e, l, k) && ElementOn([e]).On?
    ensures var f := ElementOn([e]).stack[0];
            && Describes(f, l, k + 1)
            && f.left == if e.builder || (l.open.Start? && l.open.kind == MapKind && k % 2 == 0) then e.left
                         else e.left - 1
  {
  }

  lemma {:induction false} ElementCounted(cs: seq<Call>, base: seq<Plan>, levels: seq<Level>, stack: seq<Element>)
    requires Apart(cs, base, levels, stack, 0) && ElementOn(stack).On?
    ensures Apart(cs, base, levels, ElementOn(stack).stack, 1)
  {
    hide Describes;
    if stack != [] {
      var l, t := |stack| - 1, ElementOn(stack).stack;
      assert ElementOn([stack[l]]).On? && ElementOn([stack[l]]).stack[0] == t[l];
      LeftNeverUnderflows(stack[l], levels[l], Objects(levels, l, 0));
      forall i: nat | i < |levels| ensures Describes(t[i], levels[i], Objects(levels, i, 1)) {
        if i < l { assert Describes(stack[i], levels[i], Objects(levels, i, 0)); }
      }
    }
  }

  function Spelling(l: Level): seq<Call>
    requires AllBalanced(l.done)
  {
    [l.open] + CallsAll(l.done) + Pieces(l.parts)
  }

  /** The innermost level gets more calls. */
  lemma {:induction false} LastReplaced(cs: seq<Call>, base: seq<Plan>, levels: seq<Level>,
        stack: seq<Element>, begun: nat,
                                        m: Level, e: Element, x: seq<Call>)
    requires Apart(cs, base, levels, stack, begun) && levels != [] && AllBalanced(m.done)
    requires AllBalanced(levels[|levels| - 1].done) && Spelling(m) == Spelling(levels[|levels| - 1]) + x
    requires Describes(e, m, |m.done|)
    ensures var n := |levels| - 1; Apart(cs + x, base, levels[..n] + [m], stack[n := e], 0)
  {
    hide Describes, Spelling, AllBalanced, CallsAll;
    var n := |levels| - 1;
    var ls, t := levels[..n] + [m], stack[n := e];
    assert ls[..n] == levels[..n];
    forall l | l in ls ensures AllBalanced(l.done) {
      if l in levels[..n] { assert l in levels; }
    }
    forall i: nat | i < |ls| ensures Describes(t[i], ls[i], Objects(ls, i, 0)) {
      if i < n { assert Describes(stack[i], levels[i], Objects(levels, i, begun)); }
    }
    SpelledLast(levels);
    SpelledLast(ls);
    assert cs + x == CallsAll(base) + (Spelled(levels[..n]) + (Spelling(levels[n]) + x));
  }

  lemma {:induction false} SpelledLast(levels: seq<Level>)
    requires levels != [] && forall l <- levels :: AllBalanced(l.done)
    ensures var n := |levels| - 1;
            (forall l <- levels[..n] :: AllBalanced(l.done)) && AllBalanced(levels[n].done)
            && Spelled(levels) == Spelled(levels[..n]) + Spelling(levels[n])
  {
    forall l | l in levels[..|levels| - 1] ensures AllBalanced(l.done) { assert l in levels; }
  }

  lemma {:induction false} PlanAdded(cs: seq<Call>, base: seq<Plan>, levels: seq<Level>, stack: seq<Element>, p: Plan)
      returns (b: seq<Plan>, ls: seq<Level>)
    requires Apart(cs, base, levels, stack, 1) && Balanced(p)
    ensures Apart(cs + Calls(p), b, ls, stack, 0)
  {
    hide Describes, Calls, Balanced, Spelled, Apart, Spelling;
    if levels == [] {
      b, ls := base + [p], levels;
      PlanAtTop(cs, base, levels, stack, p);
    } else {
      var n := |levels| - 1;
      InnermostDescribed(cs, base, levels, stack, 1);
      var l := levels[n];
      var m := l.(done := l.done + [p]);
      b, ls := base, levels[..n] + [m];
      DescribesDone(stack[n], l, m, |m.done|);
      SpellingPlan(stack[n], l, p);
      LastReplaced(cs, base, levels, stack, 1, m, stack[n], Calls(p));
      assert stack[n := stack[n]] == stack;
    }
  }

  lemma {:induction false} PlanAtTop(cs: seq<Call>, base: seq<Plan>, levels: seq<Level>, stack: seq<Element>, p: Plan)
    requires Apart(cs, base, levels, stack, 1) && Balanced(p) && levels == []
    ensures Apart(cs + Calls(p), base + [p], levels, stack, 0)
  {
    hide Calls, Balanced;
    assert (base + [p])[..|base|] == base;
    assert CallsAll(base) + [] == CallsAll(base);
    assert CallsAll(base + [p]) + [] == CallsAll(base + [p]);
  }

  lemma {:induction false} SpellingPlan(e: Element, l: Level, p: Plan)
    requires AllBalanced(l.done) && Balanced(p) && Describes(e, l, |l.done| + 1)
    ensures AllBalanced(l.done + [p]) && Spelling(l.(done := l.done + [p])) == Spelling(l) + Calls(p)
  {
    hide Calls, Balanced;
    RawHasNoObjects(e, l, |l.done| + 1);
    assert (l.done + [p])[..|l.done|] == l.done;
    hide Describes;
    assert [l.open] + (CallsAll(l.done) + Calls(p)) + [] == [l.open] + CallsAll(l.done) + [] + Calls(p);
  }

  lemma RawHasNoObjects(e: Element, l: Level, k: nat)
    requires Describes(e, l, k) && k > 0
    ensures l.parts == [] && Pieces(l.parts) == []
  {
  }

  /** How many objects there are matters, not which. */
  lemma DescribesDone(e: Element, l: Level, m: Level, k: nat)
    requires Describes(e, l, k) && k > 0 && m.open == l.open && m.parts == l.parts
    ensures Describes(e, m, k)
  {
  }

  predicate Opens(c: Call, e: Element) {
    match c
    case StartRaw(bin, n) => e == Element(Raw(bin), n, false, false)
    case Start(kind, n) => e == Element(Compound(kind), n, false, false)
    case Build(kind) => e == Element(Compound(kind), 0, true, false)
    case _ => false
  }

  lemma {:induction false} LevelOpened(cs: seq<Call>, base: seq<Plan>, levels: seq<Level>, stack: seq<Element>,
        c: Call, e: Element)
    requires Apart(cs, base, levels, stack, 1) && Opens(c, e)
    ensures Apart(cs + [c], base, levels + [Level(c, [], [])], stack + [e], 0)
  {
    var ls, t := levels + [Level(c, [], [])], stack + [e];
    assert ls[..|levels|] == levels;
    assert [c] + [] + [] == [c];
    assert cs + [c] == CallsAll(base) + (Spelled(levels) + [c]);
    forall i: nat | i < |ls| ensures Describes(t[i], ls[i], Objects(ls, i, 0)) {
      if i < |levels| { assert Describes(stack[i], levels[i], Objects(levels, i, 1)); }
    }
  }

  lemma {:induction false} BytesAdded(cs: seq<Call>, base: seq<Plan>, levels: seq<Level>, stack: seq<Element>,
        s: seq<byte>)
      returns (ls: seq<Level>)
    requires Apart(cs, base, levels, stack, 0) && BytesOn(stack, |s|).On?
    ensures Apart(cs + [Bytes(s)], base, ls, BytesOn(stack, |s|).stack, 0)
  {
    hide Apart, Spelled, Spelling, Describes, AllBalanced;
    var n, t := |levels| - 1, BytesOn(stack, |s|).stack;
    InnermostDescribed(cs, base, levels, stack, 0);
    var l := levels[n];
    var m := l.(parts := l.parts + [s]);
    ls := levels[..n] + [m];
    SpellingBytes(stack[n], l, s);
    LastReplaced(cs, base, levels, stack, 0, m, t[n], [Bytes(s)]);
    assert stack[n := t[n]] == t;
  }

  lemma {:induction false} SpellingBytes(e: Element, l: Level, s: seq<byte>)
    requires AllBalanced(l.done) && Describes(e, l, |l.done|) && e.what.Raw? && |s| <= e.left
    ensures var m := l.(parts := l.parts + [s]);
            Spelling(m) == Spelling(l) + [Bytes(s)] && Describes(e.(left := Decrement(e.left, |s|)), m, |m.done|)
  {
    hide AllBalanced, CallsAll;
    assert (l.parts + [s])[..|l.parts|] == l.parts;
    assert [l.open] + CallsAll(l.done) + (Pieces(l.parts) + [Bytes(s)])
        == [l.open] + CallsAll(l.done) + Pieces(l.parts) + [Bytes(s)];
  }

  lemma {:induction false} InnermostDescribed(cs: seq<Call>, base: seq<Plan>, levels: seq<Level>,
        stack: seq<Element>, begun: nat)
    requires Apart(cs, base, levels, stack, begun) && (levels != [] || stack != [])
    ensures |levels| == |stack| > 0
    ensures var l := levels[|levels| - 1]; AllBalanced(l.done) && Describes(stack[|stack| - 1], l, |l.done| + begun)
  {
    var n := |levels| - 1;
    assert levels[n] in levels && Describes(stack[n], levels[n], Objects(levels, n, begun));
  }

  /** The plan of a level that can be closed. */
  function PlanOf(l: Level): Plan {
    match l.open
    case Start(kind, _) => Known(kind, l.done)
    case Build(kind) => Built(kind, l.done)
    case _ => Chunked(l.open.StartRaw? && l.open.bin, l.parts)
  }

  predicate Closes(z: Call, what: What, builder: bool) {
    match z
    case FinishRaw(bin) => what == Raw(bin) && !builder
    case Finish(kind) => what == Compound(kind) && !builder
    case Complete(kind) => what == Compound(kind) && builder
    case _ => false
  }

  /** A level that may be closed is a plan. */
  lemma {:induction false} LevelClosed(e: Element, l: Level, z: Call, what: What, builder: bool)
    requires AllBalanced(l.done) && Describes(e, l, |l.done|) && Closes(z, what, builder)
              && e == Element(what, 0, builder, false)
    ensures Balanced(PlanOf(l)) && Calls(PlanOf(l)) == Spelling(l) + [z]
  {
    if l.open.StartRaw? { assert [l.open] + [] + Pieces(l.parts) == [l.open] + Pieces(l.parts); }
    else { assert [l.open] + CallsAll(l.done) + [] == [l.open] + CallsAll(l.done); }
  }

  lemma {:induction false} InnermostClosed(cs: seq<Call>, base: seq<Plan>, levels: seq<Level>, stack: seq<Element>,
                                           z: Call, what: What, builder: bool)
      returns (b: seq<Plan>, ls: seq<Level>)
    requires Apart(cs, base, levels, stack, 0) && Closes(z, what, builder) && PopOn(stack, what, builder).On?
    ensures Apart(cs + [z], b, ls, PopOn(stack, what, builder).stack, 0)
  {
    hide Describes, Calls, Balanced, Spelled, AllBalanced, Spelling;
    var n := |levels| - 1;
    InnermostDescribed(cs, base, levels, stack, 0);
    LevelClosed(stack[n], levels[n], z, what, builder);
    SpelledLast(levels);
    var front := CallsAll(base) + Spelled(levels[..n]);
    forall i: nat | i < n ensures Describes(stack[..n][i], levels[..n][i], Objects(levels[..n], i, 1)) {
      assert Describes(stack[i], levels[i], Objects(levels, i, 0));
    }
    assert Apart(front, base, levels[..n], stack[..n], 1);
    b, ls := PlanAdded(front, base, levels[..n], stack[..n], PlanOf(levels[n]));
    assert cs + [z] == front + (Spelling(levels[n]) + [z]);
  }

  /** Whatever is accepted can be taken apart into complete plans and open levels. */
  lemma {:induction false} TakenApart(cs: seq<Call>) returns (base: seq<Plan>, levels: seq<Level>)
    requires CallsOn([], cs).On? && forall c <- cs :: Typed(c)
    ensures Apart(cs, base, levels, CallsOn([], cs).stack, 0)
    decreases |cs|
  {
    hide Apart, ElementOn, BytesOn, PopOn;
    if cs == [] {
      base, levels := [], [];
      NothingApart();
    } else {
      var front, c := cs[..|cs| - 1], cs[|cs| - 1];
      assert c in cs;
      base, levels := TakenApart(front);
      base, levels := CallTaken(front, base, levels, CallsOn([], front).stack, c);
      assert front + [c] == cs;
    }
  }

  lemma NothingApart()
    ensures Apart([], [], [], [], 0)
  {
  }

  lemma {:induction false} CallTaken(cs: seq<Call>, base: seq<Plan>, levels: seq<Level>, stack: seq<Element>, c: Call)
      returns (b: seq<Plan>, ls: seq<Level>)
    requires Apart(cs, base, levels, stack, 0) && CallOn(stack, c).On? && Typed(c)
    ensures Apart(cs + [c], b, ls, CallOn(stack, c).stack, 0)
  {
    hide Apart, ElementOn, BytesOn, PopOn;
    match c
    case Put(v) =>
      ElementCounted(cs, base, levels, stack);
      b, ls := PlanAdded(cs, base, levels, ElementOn(stack).stack, Scalar(v));
    case PutStr(s) =>
      ElementCounted(cs, base, levels, stack);
      b, ls := PlanAdded(cs, base, levels, ElementOn(stack).stack, Text(s));
    case StartRaw(bin, n) =>
      ElementCounted(cs, base, levels, stack);
      LevelOpened(cs, base, levels, ElementOn(stack).stack, c, Element(Raw(bin), n, false, false));
      b, ls := base, levels + [Level(c, [], [])];
    case Start(kind, n) =>
      ElementCounted(cs, base, levels, stack);
      LevelOpened(cs, base, levels, ElementOn(stack).stack, c, Element(Compound(kind), n, false, false));
      b, ls := base, levels + [Level(c, [], [])];
    case Build(kind) =>
      ElementCounted(cs, base, levels, stack);
      LevelOpened(cs, base, levels, ElementOn(stack).stack, c, Element(Compound(kind), 0, true, false));
      b, ls := base, levels + [Level(c, [], [])];
    case Bytes(s) =>
      ls := BytesAdded(cs, base, levels, stack, s);
      b := base;
    case FinishRaw(bin) => b, ls := InnermostClosed(cs, base, levels, stack, c, Raw(bin), false);
    case Finish(kind) => b, ls := InnermostClosed(cs, base, levels, stack, c, Compound(kind), false);
    case Complete(kind) => b, ls := InnermostClosed(cs, base, levels, stack, c, Compound(kind), true);
  }

  // ---- what is well nested is accepted

  lemma {:induction false} CallsThrough(stack: seq<Element>, a: seq<Call>, b: seq<Call>)
    requires CallsOn(stack, a).On?
    ensures CallsOn(stack, a + b) == CallsOn(CallsOn(stack, a).stack, b)
    decreases |b|
  {
    hide CallOn;
    if b == [] {
      assert a + b == a;
    } else {
      CallsThrough(stack, a, b[..|b| - 1]);
      assert (a + b)[..|a + b| - 1] == a + b[..|b| - 1];
    }
  }

  lemma {:induction false} OneCall(stack: seq<Element>, c: Call)
    ensures CallsOn(stack, [c]) == CallOn(stack, c)
  {
    assert [c][..0] == [] && CallsOn(stack, []) == On(stack);
  }

  /** A call, a run and another call. */
  lemma {:induction false} CallsAround(stack: seq<Element>, a: Call, cs: seq<Call>, z: Call)
    requires CallOn(stack, a).On? && CallsOn(CallOn(stack, a).stack, cs).On?
    ensures CallsOn(stack, [a] + cs + [z]) == CallOn(CallsOn(CallOn(stack, a).stack, cs).stack, z)
  {
    hide CallOn, CallsOn;
    OneCall(stack, a);
    CallsThrough(stack, [a], cs);
    CallsThrough(stack, [a] + cs, [z]);
    OneCall(CallsOn(stack, [a] + cs).stack, z);
  }

  /** The element of a container after `k` objects in it. */
  function After(open: Call, k: nat): Element
    requires open.Build? || (open.Start? && k <= if open.kind == MapKind then 2 * open.n else open.n)
  {
    var odd := open.kind == MapKind && k % 2 == 1;
    if open.Build? then Element(Compound(open.kind), 0, true, odd)
    else Element(Compound(open.kind), open.n - SizeFor(open.kind, k), false, odd)
  }

  lemma {:induction false} ItemsAccepted(stack: seq<Element>, open: Call, ps: seq<Plan>)
    requires AllBalanced(ps)
    requires open.Build? || (open.Start? && |ps| <= if open.kind == MapKind then 2 * open.n else open.n)
    ensures CallsOn(stack + [After(open, 0)], CallsAll(ps)) == On(stack + [After(open, |ps|)])
    decreases SizeAll(ps), 0
  {
    hide CallsOn, ElementOn, Calls, Balanced;
    var s := stack + [After(open, 0)];
    if ps == [] {
      NoCalls(s);
    } else {
      var n := |ps| - 1;
      ItemsAccepted(stack, open, ps[..n]);
      OneMore(stack, open, n);
      PlanAccepted(stack + [After(open, n)], ps[n]);
      CallsThrough(s, CallsAll(ps[..n]), Calls(ps[n]));
    }
  }

  lemma NoCalls(stack: seq<Element>)
    ensures CallsOn(stack, []) == On(stack)
  {
  }

  lemma {:induction false} OneMore(stack: seq<Element>, open: Call, k: nat)
    requires open.Build? || (open.Start? && k < if open.kind == MapKind then 2 * open.n else open.n)
    ensures ElementOn(stack + [After(open, k)]) == On(stack + [After(open, k + 1)])
  {
    hide After, Decrement;
    AfterNext(open, k);
    var t := stack + [After(open, k)];
    assert t[|stack| := After(open, k + 1)] == stack + [After(open, k + 1)];
  }

  lemma AfterNext(open: Call, k: nat)
    requires open.Build? || (open.Start? && k < if open.kind == MapKind then 2 * open.n else open.n)
    ensures var e, f := After(open, k), After(open, k + 1);
            && e.what == Compound(open.kind) && (e.builder || e.left > 0 || e.keyNeedsValue)
            && f == if open.kind == MapKind && !e.keyNeedsValue then e.(keyNeedsValue := true)
                    else e.(keyNeedsValue := false, left := if e.builder then e.left else Decrement(e.left, 1))
    ensures open.kind == ArrayKind ==> !After(open, k).keyNeedsValue
  {
  }

  lemma {:induction false} PiecesAccepted(stack: seq<Element>, bin: bool, n: u32, parts: seq<seq<byte>>)
    requires |Concat(parts)| <= n
    ensures CallsOn(stack + [Element(Raw(bin), n, false, false)], Pieces(parts))
         == On(stack + [Element(Raw(bin), n - |Concat(parts)|, false, false)])
  {
    hide BytesOn;
    if parts != [] {
      var m := |parts| - 1;
      PiecesAccepted(stack, bin, n, parts[..m]);
      PieceAccepted(stack, bin, n - |Concat(parts[..m])|, |parts[m]|);
      var ps := Pieces(parts);
      assert ps[..|ps| - 1] == Pieces(parts[..m]);
    }
  }

  lemma {:induction false} PieceAccepted(stack: seq<Element>, bin: bool, left: u32, n: nat)
    requires n <= left
    ensures BytesOn(stack + [Element(Raw(bin), left, false, false)], n)
              == On(stack + [Element(Raw(bin), left - n, false, false)])
  {
    var t := stack + [Element(Raw(bin), left, false, false)];
    assert t[|stack| := Element(Raw(bin), left - n, false, false)]
        == stack + [Element(Raw(bin), left - n, false, false)];
  }

  /** Where an element may be written, any plan may. */
  lemma {:induction false} PlanAccepted(stack: seq<Element>, p: Plan)
    requires Balanced(p) && ElementOn(stack).On?
    ensures CallsOn(stack, Calls(p)) == ElementOn(stack)
    decreases Size(p), 1
  {
    hide CallsOn, ElementOn, AllBalanced;
    match p
    case Scalar(v) => OneCall(stack, Put(v));
    case Text(b) => OneCall(stack, PutStr(b));
    case Chunked(bin, parts) => ChunkedAccepted(stack, bin, parts);
    case Known(kind, items) => ContainerAccepted(stack, Start(kind, SizeFor(kind, |items|)), items, Finish(kind));
    case Built(kind, items) => ContainerAccepted(stack, Call.Build(kind), items, Complete(kind));
  }

  lemma {:induction false} ChunkedAccepted(stack: seq<Element>, bin: bool, parts: seq<seq<byte>>)
    requires |Concat(parts)| < U32 && ElementOn(stack).On?
    ensures CallsOn(stack, [StartRaw(bin, |Concat(parts)|)] + Pieces(parts) + [FinishRaw(bin)]) == ElementOn(stack)
  {
    hide CallsOn, ElementOn, PopOn;
    var s := ElementOn(stack).stack;
    PiecesAccepted(s, bin, |Concat(parts)|, parts);
    CallsAround(stack, StartRaw(bin, |Concat(parts)|), Pieces(parts), FinishRaw(bin));
    Popped(s, Element(Raw(bin), 0, false, false));
  }

  lemma {:induction false} ContainerAccepted(stack: seq<Element>, open: Call, items: seq<Plan>, z: Call)
    requires AllBalanced(items) && ElementOn(stack).On?
    requires
      || (open.Start? && Sizes(open.kind, |items|) && open.n == SizeFor(open.kind, |items|) && z == Finish(open.kind))
      || (open.Build? && Sizes(open.kind, |items|) && z == Complete(open.kind))
    ensures CallsOn(stack, [open] + CallsAll(items) + [z]) == ElementOn(stack)
    decreases SizeAll(items), 1
  {
    hide CallsOn, ElementOn, AllBalanced, PopOn, CallsAll;
    var s := ElementOn(stack).stack;
    ItemsAccepted(s, open, items);
    CallsAround(stack, open, CallsAll(items), z);
    Popped(s, After(open, |items|));
  }

  lemma {:induction false} Popped(stack: seq<Element>, e: Element)
    requires e.left == 0 && !e.keyNeedsValue
    ensures PopOn(stack + [e], e.what, e.builder) == On(stack)
  {
    assert (stack + [e])[..|stack|] == stack;
  }

  lemma {:induction false} PlansAccepted(ps: seq<Plan>)
    requires AllBalanced(ps)
    ensures CallsOn([], CallsAll(ps)) == On([])
    decreases |ps|
  {
    hide CallsOn, Calls, Balanced;
    if ps == [] {
      NoCalls([]);
    } else {
      var n := |ps| - 1;
      PlansAccepted(ps[..n]);
      PlanAccepted([], ps[n]);
      CallsThrough([], CallsAll(ps[..n]), Calls(ps[n]));
    }
  }

  /** A run of calls is accepted with nothing left open exactly if it is the flattening of plans. */
  lemma {:induction false} AcceptsExactlyPlans(cs: seq<Call>)
    requires forall c <- cs :: Typed(c)
    ensures CallsOn([], cs) == On([]) <==> exists ps :: AllBalanced(ps) && CallsAll(ps) == cs
  {
    hide CallsOn, Describes;
    if CallsOn([], cs) == On([]) {
      var ps := AcceptedIsPlans(cs);
    }
    forall ps | AllBalanced(ps) && CallsAll(ps) == cs ensures CallsOn([], cs) == On([]) { PlansAccepted(ps); }
  }

  lemma {:induction false} AcceptedIsPlans(cs: seq<Call>) returns (ps: seq<Plan>)
    requires CallsOn([], cs) == On([]) && forall c <- cs :: Typed(c)
    ensures AllBalanced(ps) && CallsAll(ps) == cs
  {
    hide CallsOn, Describes;
    var levels;
    ps, levels := TakenApart(cs);
    assert CallsAll(ps) + [] == CallsAll(ps);
  }

  // ---- what was begun can be finished

  /** An element as a run can leave it: only a map waits for a value, and a known one only while entries are left. */
  predicate Fine(e: Element) {
    match e.what
    case Raw(_) => !e.builder && !e.keyNeedsValue
    case Compound(ArrayKind) => !e.keyNeedsValue && (e.builder ==> e.left == 0)
    case Compound(MapKind) => if e.builder then e.left == 0 else e.keyNeedsValue ==> e.left > 0
  }

  /** Objects that an element has to get before it can be closed. */
  function Missing(e: Element): nat
    requires Fine(e)
  {
    match e.what
    case Raw(_) => 0
    case Compound(kind) =>
      if e.builder then if e.keyNeedsValue then 1 else 0
      else if kind == ArrayKind then e.left
      else 2 * e.left - if e.keyNeedsValue then 1 else 0
  }

  lemma DecrementExact(n: u32, m: u32)
    requires m <= n
    ensures Decrement(n, m) == n - m
  {
  }

  /** An element that gets one more object stays fine. */
  lemma FineElement(stack: seq<Element>)
    requires (forall e <- stack :: Fine(e)) && ElementOn(stack).On?
    ensures var s := ElementOn(stack).stack;
            && |s| == |stack| && (forall e <- s :: Fine(e))
            && (stack != [] ==> s[..|stack| - 1] == stack[..|stack| - 1])
            && (stack != [] && Missing(stack[|stack| - 1]) > 0 ==>
                  Missing(s[|stack| - 1]) == Missing(stack[|stack| - 1]) - 1)
  {
    hide Decrement;
    if stack != [] {
      var l := |stack| - 1;
      var e, s := stack[l], ElementOn(stack).stack;
      if e.left > 0 { DecrementExact(e.left, 1); }
      assert Fine(e) && Fine(s[l]);
      forall x | x in s ensures Fine(x) { assert x in stack || x == s[l]; }
    }
  }

  lemma FineStep(stack: seq<Element>, c: Call)
    requires (forall e <- stack :: Fine(e)) && CallOn(stack, c).On?
    ensures forall e <- CallOn(stack, c).stack :: Fine(e)
  {
    hide ElementOn, Decrement;
    if ElementOn(stack).On? { FineElement(stack); }
    var s := CallOn(stack, c).stack;
    if c.Bytes? {
      assert stack[|stack| - 1] in stack;
      forall x | x in s ensures Fine(x) { assert x in stack || x == s[|stack| - 1]; }
    } else if c.FinishRaw? || c.Finish? || c.Complete? {
      forall x | x in s ensures Fine(x) { assert x in stack; }
    }
  }

  lemma {:induction false} FineRun(cs: seq<Call>)
    requires CallsOn([], cs).On?
    ensures forall e <- CallsOn([], cs).stack :: Fine(e)
    decreases |cs|
  {
    hide CallOn, Fine;
    if cs != [] {
      FineRun(cs[..|cs| - 1]);
      FineStep(CallsOn([], cs[..|cs| - 1]).stack, cs[|cs| - 1]);
    }
  }

  lemma MissingAllowed(stack: seq<Element>)
    requires (forall e <- stack :: Fine(e)) && stack != [] && Missing(stack[|stack| - 1]) > 0
    ensures ElementOn(stack).On?
  {
    assert Fine(stack[|stack| - 1]);
  }

  /** The innermost element can be closed. */
  lemma {:induction false} CloseInnermost(stack: seq<Element>) returns (zs: seq<Call>)
    requires (forall e <- stack :: Fine(e)) && stack != []
    ensures CallsOn(stack, zs) == On(stack[..|stack| - 1]) && forall z <- zs :: Typed(z)
    decreases Missing(stack[|stack| - 1])
  {
    hide CallsOn;
    var l := |stack| - 1;
    var e := stack[l];
    if Missing(e) > 0 {
      MissingAllowed(stack);
      FineElement(stack);
      var s := ElementOn(stack).stack;
      var rest := CloseInnermost(s);
      zs := [Put(Nil)] + rest;
      OneCall(stack, Put(Nil));
      CallsThrough(stack, [Put(Nil)], rest);
    } else if e.what.Raw? {
      var b, z := Bytes(seq(e.left, _ => 0)), FinishRaw(e.what.bin);
      zs := [b] + [z];
      OneCall(stack, b);
      CallsThrough(stack, [b], [z]);
      OneCall(BytesOn(stack, e.left).stack, z);
      BytesGone(stack);
    } else {
      var z := if e.builder then Complete(e.what.kind) else Finish(e.what.kind);
      zs := [z];
      OneCall(stack, z);
    }
  }

  lemma BytesGone(stack: seq<Element>)
    requires stack != [] && stack[|stack| - 1].what.Raw? && Fine(stack[|stack| - 1])
    ensures var l, e := |stack| - 1, stack[|stack| - 1];
            && BytesOn(stack, e.left) == On(stack[l := e.(left := 0)])
            && PopOn(stack[l := e.(left := 0)], e.what, false) == On(stack[..l])
  {
  }

  lemma {:induction false} CloseAll(stack: seq<Element>) returns (zs: seq<Call>)
    requires forall e <- stack :: Fine(e)
    ensures CallsOn(stack, zs) == On([]) && forall z <- zs :: Typed(z)
    decreases |stack|
  {
    hide CallsOn, Fine;
    if stack == [] {
      zs := [];
      NoCalls(stack);
    } else {
      var first := CloseInnermost(stack);
      var rest := CloseAll(stack[..|stack| - 1]);
      zs := first + rest;
      CallsThrough(stack, first, rest);
    }
  }

  lemma {:induction false} BeginningOn(stack: seq<Element>, a: seq<Call>, b: seq<Call>)
    requires CallsOn(stack, a + b).On?
    ensures CallsOn(stack, a).On?
    decreases |b|
  {
    hide CallOn;
    if b == [] {
      assert a + b == a;
    } else {
      assert (a + b)[..|a + b| - 1] == a + b[..|b| - 1];
      BeginningOn(stack, a, b[..|b| - 1]);
    }
  }

  /** A call is refused exactly if no plans begin with the calls so far: neither too early nor too late. */
  lemma {:induction false} AcceptsExactlyBeginnings(cs: seq<Call>)
    requires forall c <- cs :: Typed(c)
    ensures CallsOn([], cs).On? <==> exists ps, rest :: AllBalanced(ps) && CallsAll(ps) == cs + rest
  {
    hide CallsOn, Fine;
    if CallsOn([], cs).On? {
      FineRun(cs);
      var rest := CloseAll(CallsOn([], cs).stack);
      CallsThrough([], cs, rest);
      var ps := AcceptedIsPlans(cs + rest);
    }
    forall ps, rest | AllBalanced(ps) && CallsAll(ps) == cs + rest ensures CallsOn([], cs).On? {
      PlansAccepted(ps);
      BeginningOn([], cs, rest);
    }
  }

  /** Whatever the tracker accepts so far, complete or not, is allowed by the writer. */
  lemma {:induction false} AcceptedIsAllowed(d: Draft, cs: seq<Call>)
    requires CallsOn([], cs).On? && (forall c <- cs :: Typed(c)) && Sound(d)
    ensures Run(d, cs).At?
  {
    hide CallsOn, Run, Fine, Sound;
    FineRun(cs);
    var zs := CloseAll(CallsOn([], cs).stack);
    CallsThrough([], cs, zs);
    var ps := AcceptedIsPlans(cs + zs);
    var e := ItemsRun(d, ps);
    if zs == [] {
      assert cs + zs == cs;
    } else {
      RunsPrefix(d, cs + zs, |cs|);
      assert (cs + zs)[..|cs|] == cs;
    }
  }

  // ---- what an accepted run writes

  /** No plan with so few calls can exceed a size of the format. */
  lemma {:induction false} FewCallsProper(ps: seq<Plan>)
    requires AllBalanced(ps) && |CallsAll(ps)| < U32
    ensures AllProper(ps) && |ps| <= |CallsAll(ps)|
    decreases SizeAll(ps)
  {
    if ps != [] {
      FewCallsProper(ps[..|ps| - 1]);
      ProperPlan(ps[|ps| - 1]);
    }
  }

  lemma {:induction false} ProperPlan(p: Plan)
    requires Balanced(p) && |Calls(p)| < U32
    ensures Proper(p)
    decreases Size(p)
  {
    match p
    case Known(_, items) => FewCallsProper(items);
    case Built(_, items) => FewCallsProper(items);
    case _ =>
  }

  /**
   * A tracked run that ends with nothing open is one that the writer allows, and what it adds are the bytes of plans.
   * It decodes, whatever was out before, to the values they mean if and only if no build has 2^32 or more items, which
   * the tracker does not look after.
   */
  lemma {:induction false} TrackedRunEmits(d: Draft, cs: seq<Call>) returns (ps: seq<Plan>)
    requires CallsOn([], cs) == On([]) && (forall c <- cs :: Typed(c)) && Sound(d) && d.current == -1
    ensures AllBalanced(ps) && CallsAll(ps) == cs && (|cs| < U32 ==> AllProper(ps))
    ensures Run(d, cs) == At(d.(out := d.out + EmittedAll(ps)))
    ensures var out := d.out + EmittedAll(ps);
            var r := Decode(out, |d.out|, |ps|);
            r.Done? && r.vals == NormalAll(MeantAll(ps)) && r.next == |out| <==> AllProper(ps)
  {
    hide CallsOn, Run, EmittedAll, Decode, NormalAll, AllProper, AllBalanced, Sound;
    ps := AcceptedIsPlans(cs);
    if |cs| < U32 { FewCallsProper(ps); }
    var e := ItemsRun(d, ps);
    BuiltAsDirect(d, ps, e);
    var out := d.out + EmittedAll(ps);
    assert out[|d.out|..|d.out| + |EmittedAll(ps)|] == EmittedAll(ps);
    ReadsBackExactly(ps, out, |d.out|);
  }
}
