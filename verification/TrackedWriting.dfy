/**
 The writer with its nesting checker, as they are built for debugging: every call
 is checked first, and one that is refused is an error of the writer. A run that
 ends without an error and with nothing open has written complete objects, and
 nothing is demanded of the order of its calls.
 */
module TrackedWriting {
  import opened MsgPack
  import opened Encoding
  import opened Plans
  import opened Drafts
  import opened BuildPages
  import opened Sites
  import opened Tracking
  import opened Writing

  /** One more call of a run. */
  lemma {:induction false} OneMoreCall(cs: seq<Call>, i: nat)
    requires i < |cs|
    ensures cs[..i + 1] == cs[..i] + [cs[i]]
    ensures CallsOn([], cs[..i]).On? ==> CallsOn([], cs[..i + 1]) == CallOn(CallsOn([], cs[..i]).stack, cs[i])
    ensures CallsOn([], cs[..i]).Refused? ==> CallsOn([], cs[..i + 1]).Refused?
  {
    hide CallOn;
    assert cs[..i + 1][..i] == cs[..i];
  }

  /** What is refused stays refused. */
  lemma {:induction false} RefusedStays(cs: seq<Call>, i: nat)
    requires i <= |cs| && CallsOn([], cs[..i]).Refused?
    ensures CallsOn([], cs).Refused?
    decreases |cs| - i
  {
    hide CallOn, CallsOn;
    if i < |cs| {
      OneMoreCall(cs, i);
      RefusedStays(cs, i + 1);
    } else {
      assert cs[..i] == cs;
    }
  }

  /** The next call: checked, unless there is an error, and made if it is not refused. */
  method CheckAndDo(t: Track, w: Writer, cs: seq<Call>, i: nat, ghost d: Draft, ghost s: Site, ghost lost: bool)
    returns (refused: bool)
    requires i < |cs| && t.Valid() && w.Valid() && w.Settled() && Sound(d) && Tenable(w.g, s)
    requires (forall c <- cs :: Typed(c)) && forall j :: 0 <= j < |cs| ==> Typed(cs[j])
    requires w.error == Ok ==> CallsOn([], cs[..i]) == On(t.Stack())
    requires CallsOn([], cs[..i]).On? ==> w.Followed(d, s, cs[..i], lost, false)
    modifies t, t.elements, w, w.buffer, w.stash
    ensures t.Valid() && w.Valid()
    ensures fresh({t.elements} - old({t.elements})) && fresh({w.buffer, w.stash} - old({w.buffer, w.stash}))
    ensures refused ==> w.error != Ok && CallsOn([], cs[..i + 1]).Refused?
    ensures !refused ==> w.Settled() && (w.error == Ok ==> CallsOn([], cs[..i + 1]) == On(t.Stack()))
    ensures !refused && CallsOn([], cs[..i + 1]).On? ==> w.Followed(d, s, cs[..i + 1], lost, false)
  {
    hide Writer.Valid, Writer.Followed, CallsOn, CallOn, Run, Step, SiteRun, Sound, Tenable, Typed;
    OneMoreCall(cs, i);
    if w.error == Ok {
      var e := t.Check(cs[i]);
      if e != Ok {
        w.Refuse(e);
        return true;
      }
    }
    ghost var on := CallsOn([], cs[..i + 1]).On?;
    if on { AcceptedIsAllowed(d, cs[..i + 1]); }
    w.Follow(cs[i], on, d, s, cs[..i], lost, false);
    refused := false;
  }

  /**
   * Any calls, in any order, checked one by one: a refused call is a bug and ends the run. If none is refused, the
   * writer does what they mean; if moreover nothing is left open, the calls are those of plans, whose bytes are
   * appended unless the calls overlook a header, with a fixed buffer exactly if they fit.
   */
  method WriteTracked(t: Track, w: Writer, cs: seq<Call>) returns (ok: bool, ghost ps: seq<Plan>)
    requires t.Valid() && t.Stack() == [] && w.Valid() && w.error == Ok && w.current == -1 && !w.overlooked
    requires forall c <- cs :: Typed(c)
    modifies t, t.elements, w, w.buffer, w.stash
    ensures t.Valid() && w.Valid() && (ok <==> w.error == Ok && t.Stack() == [])
    ensures forall i :: 0 <= i < |cs| ==> Typed(cs[i])
    ensures CallsOn([], cs).Refused? ==> w.error != Ok
    ensures w.error == Ok ==> CallsOn([], cs) == On(t.Stack())
    ensures CallsOn([], cs) == On([]) ==>
              && AllBalanced(ps) && CallsAll(ps) == cs && (|cs| < U32 ==> AllProper(ps))
              && var out := old(w.View()).out + EmittedAll(ps);
              if Misses(w.g, cs) then !ok || w.lost || |w.View().out| < |out|
              else if w.growable || |out| <= w.capacity then ok && w.View().out == out
              else w.error == TooBig
    ensures CallsOn([], cs) == On([]) ==>
              var out := old(w.View()).out + EmittedAll(ps);
              var r := Decode(out, |old(w.View()).out|, |ps|);
              r.Done? && r.vals == NormalAll(MeantAll(ps)) && r.next == |out| <==> AllProper(ps)
  {
    hide Writer.Valid, Writer.Followed, CallsOn, CallOn, Run, Step, SiteRun, Sound, Tenable, EmittedAll, Decode,
         NormalAll, AllProper, AllBalanced, CallsAll, Typed;
    ghost var d, s, lost := w.View(), w.Where(), w.lost;
    ps := [];
    if CallsOn([], cs) == On([]) { ps := TrackedRunEmits(d, cs); }
    NothingDone(w, d, s);
    Tracking.NoCalls([]);
    var i := 0;
    while i < |cs|
      invariant i <= |cs| && t.Valid() && w.Valid() && w.Settled()
      invariant fresh({t.elements} - old({t.elements})) && fresh({w.buffer, w.stash} - old({w.buffer, w.stash}))
      invariant w.error == Ok ==> CallsOn([], cs[..i]) == On(t.Stack())
      invariant CallsOn([], cs[..i]).On? ==> w.Followed(d, s, cs[..i], lost, false)
    {
      var refused := CheckAndDo(t, w, cs, i, d, s, lost);
      if refused {
        RefusedStays(cs, i + 1);
        return false, ps;
      }
      i := i + 1;
    }
    assert cs[..|cs|] == cs;
    ok := w.error == Ok && t.count == 0;
    if CallsOn([], cs) == On([]) { Concluded(w, d, s, cs, lost, d.out + EmittedAll(ps)); }
  }

  /** What comes out of a run whose calls mean `out`. */
  lemma {:induction false} Concluded(w: Writer, d: Draft, s: Site, cs: seq<Call>, wasLost: bool, out: seq<byte>)
    requires w.Valid() && w.Settled() && s == Outside(false) && (forall i :: 0 <= i < |cs| ==> Typed(cs[i]))
    requires Tenable(w.g, s) && w.Followed(d, s, cs, wasLost, false)
    requires d.current == -1 && Run(d, cs) == At(d.(out := out))
    ensures if Misses(w.g, cs) then w.error != Ok || w.lost || |w.View().out| < |out|
            else if w.growable || |out| <= w.capacity then w.error == Ok && w.View().out == out
            else w.error == TooBig
  {
    hide Writer.Valid, Run, SiteRun;
  }

  lemma NothingDone(w: Writer, d: Draft, s: Site)
    requires w.Valid() && w.error == Ok && !w.overlooked && d == w.View() && s == w.Where()
    requires w.growable || |d.out| <= w.capacity
    ensures w.Followed(d, s, [], w.lost, false)
  {
    hide Writer.Valid;
  }
}
