/** Value-level model of the slide-activation hook `useSlideEvents`
    (components/use-slides.ts): its state, the events that drive it, and
    the callbacks each event invokes. The class in SlideHook is proved
    against `Step`; the lemmas here state what several events do together. */
module SlideModel {

  /** A subscriber callback. Callbacks are opaque zero-argument functions,
      so the model only needs to tell them apart. */
  type CallbackId = nat

  /** A JS `Set` iterated in insertion order holds no element twice. */
  predicate NoDups(s: seq<CallbackId>) {
    forall i, j :: 0 <= i < j < |s| ==> s[i] != s[j]
  }

  /** `Set.prototype.add` on an insertion-ordered set: a new member goes to
      the end, an existing one is left where it is. */
  function SetAdd(subs: seq<CallbackId>, cb: CallbackId): (r: seq<CallbackId>)
    ensures forall x :: x in r <==> x in subs || x == cb
    ensures subs <= r
    ensures NoDups(subs) ==> NoDups(r)
    ensures cb in subs ==> r == subs
    ensures |r| <= |subs| + 1
  {
    if cb in subs then subs else subs + [cb]
  }

  /** The state of one hook instance: `isActive`, whether `onMounted` has
      run (and so the host handlers are registered), and the two subscriber
      sets `oseSubs` and `oslSubs`. */
  datatype Hook = Hook(active: bool, mounted: bool,
                       enterSubs: seq<CallbackId>, leaveSubs: seq<CallbackId>)

  ghost predicate Valid(h: Hook) {
    NoDups(h.enterSubs) && NoDups(h.leaveSubs)
  }

  /** Everything that can happen to a hook: the component is mounted, the
      host fires "slide entered" or "slide left", or the caller uses the
      returned `onSlideEnter` / `onSlideLeave`. */
  datatype Event =
    | Mount
    | HostEnter
    | HostLeave
    | SubscribeEnter(cb: CallbackId)
    | SubscribeLeave(cb: CallbackId)

  /** The state after an event, and the callbacks invoked, in order. */
  datatype Outcome = Outcome(hook: Hook, fired: seq<CallbackId>)

  /** The hook as `useSlideEvents` builds it: `isActive` copied from the
      host's query, not yet mounted, both sets empty. */
  function Init(initiallyActive: bool): (h: Hook)
    ensures Valid(h) && h.active == initiallyActive && !h.mounted
    ensures h.enterSubs == [] && h.leaveSubs == []
  {
    Hook(initiallyActive, false, [], [])
  }

  function Step(h: Hook, e: Event): (o: Outcome)
    ensures Valid(h) ==> Valid(o.hook)
    ensures h.enterSubs <= o.hook.enterSubs && h.leaveSubs <= o.hook.leaveSubs
    ensures o.hook.active != h.active ==> h.mounted && (e.HostEnter? || e.HostLeave?)
    ensures o.hook.mounted == (h.mounted || e.Mount?)
    ensures forall x :: x in o.fired ==>
      x in h.enterSubs || x in h.leaveSubs || e == SubscribeEnter(x) || e == SubscribeLeave(x)
  {
    match e
    case Mount =>
      Outcome(h.(mounted := true), [])
    case HostEnter =>
      if !h.mounted || h.active then Outcome(h, [])
      else Outcome(h.(active := true), h.enterSubs)
    case HostLeave =>
      if !h.mounted then Outcome(h, [])
      else Outcome(h.(active := false), h.leaveSubs)
    case SubscribeEnter(cb) =>
      if h.active then Outcome(h, [cb])
      else Outcome(h.(enterSubs := SetAdd(h.enterSubs, cb)), [])
    case SubscribeLeave(cb) =>
      if !h.active then Outcome(h, [cb])
      else Outcome(h.(leaveSubs := SetAdd(h.leaveSubs, cb)), [])
  }

  /** A sequence of events applied one after the other; `fired` is the
      whole invocation log. */
  function Run(h: Hook, es: seq<Event>): (o: Outcome)
    decreases |es|
  {
    if es == [] then Outcome(h, [])
    else
      var first := Step(h, es[0]);
      var rest := Run(first.hook, es[1..]);
      Outcome(rest.hook, first.fired + rest.fired)
  }

  /** Running `[e] + es` is one step followed by the rest. */
  lemma RunCons(h: Hook, e: Event, es: seq<Event>)
    ensures var first := Step(h, e);
            var rest := Run(first.hook, es);
            Run(h, [e] + es) == Outcome(rest.hook, first.fired + rest.fired)
  {
  }

  // ---------------------------------------------------------------------
  // One event

  /** A second "slide entered" without a "slide left" in between does
      nothing: the state, both sets and the log stay as the first left them. */
  lemma EnterIsIdempotent(h: Hook)
    ensures var once := Step(h, HostEnter);
            Step(once.hook, HostEnter) == Outcome(once.hook, [])
  {
  }

  /** "Slide entered" on an inactive, mounted hook activates it and invokes
      every enter subscriber once, in insertion order; the sets are kept. */
  lemma EnterFiresAllSubscribers(h: Hook)
    requires h.mounted && !h.active
    ensures Step(h, HostEnter) == Outcome(h.(active := true), h.enterSubs)
  {
  }

  /** "Slide left" on a mounted hook always deactivates it and invokes every
      leave subscriber, even when it was already inactive. */
  lemma LeaveIsUnconditional(h: Hook)
    requires h.mounted
    ensures Step(h, HostLeave) == Outcome(h.(active := false), h.leaveSubs)
  {
  }

  /** Host events that arrive before mount find no handler registered. */
  lemma HostEventsBeforeMountAreIgnored(h: Hook, e: Event)
    requires !h.mounted && (e.HostEnter? || e.HostLeave?)
    ensures Step(h, e) == Outcome(h, [])
  {
  }

  /** `onSlideEnter(cb)` either fires `cb` now (active) or stores it
      (inactive), never both, and never changes the state. */
  lemma SubscribeEnterFiresOrStores(h: Hook, cb: CallbackId)
    ensures var o := Step(h, SubscribeEnter(cb));
            o.hook.active == h.active && o.hook.leaveSubs == h.leaveSubs &&
            (o.fired == [cb] <==> h.active) &&
            (h.active ==> o.hook.enterSubs == h.enterSubs) &&
            (!h.active ==> o.fired == [] && o.hook.enterSubs == SetAdd(h.enterSubs, cb))
  {
  }

  /** `onSlideLeave(cb)` is the mirror image: fires now when inactive,
      stored when active. */
  lemma SubscribeLeaveFiresOrStores(h: Hook, cb: CallbackId)
    ensures var o := Step(h, SubscribeLeave(cb));
            o.hook.active == h.active && o.hook.enterSubs == h.enterSubs &&
            (o.fired == [cb] <==> !h.active) &&
            (!h.active ==> o.hook.leaveSubs == h.leaveSubs) &&
            (h.active ==> o.fired == [] && o.hook.leaveSubs == SetAdd(h.leaveSubs, cb))
  {
  }

  // ---------------------------------------------------------------------
  // Counting invocations

  /** In a sequence without duplicates every element occurs exactly once. */
  lemma {:induction false} NoDupsOccursOnce(s: seq<CallbackId>, x: CallbackId)
    requires NoDups(s)
    ensures multiset(s)[x] == if x in s then 1 else 0
  {
    if s != [] {
      assert s == [s[0]] + s[1..];
      assert NoDups(s[1..]) by {
        forall i, j | 0 <= i < j < |s[1..]| ensures s[1..][i] != s[1..][j] {
          assert s[1..][i] == s[i + 1] && s[1..][j] == s[j + 1];
        }
      }
      NoDupsOccursOnce(s[1..], x);
      assert s[0] !in s[1..] by {
        forall k | 0 <= k < |s[1..]| ensures s[1..][k] != s[0] {
          assert s[1..][k] == s[k + 1];
        }
      }
    }
  }

  /** A stored enter subscriber is invoked exactly once by each
      inactive-to-active transition. */
  lemma StoredEnterFiresOncePerEntry(h: Hook, cb: CallbackId)
    requires Valid(h) && h.mounted && !h.active && cb in h.enterSubs
    ensures multiset(Step(h, HostEnter).fired)[cb] == 1
  {
    NoDupsOccursOnce(h.enterSubs, cb);
  }

  /** A stored leave subscriber is invoked exactly once by each "slide
      left", whatever the state before it. */
  lemma StoredLeaveFiresOncePerLeave(h: Hook, cb: CallbackId)
    requires Valid(h) && h.mounted && cb in h.leaveSubs
    ensures multiset(Step(h, HostLeave).fired)[cb] == 1
  {
    NoDupsOccursOnce(h.leaveSubs, cb);
  }

  // ---------------------------------------------------------------------
  // Many events

  /** The subscriber sets are only ever added to: no sequence of events
      removes a stored callback or reorders the ones already there. */
  lemma {:induction false} RunKeepsSubscribers(h: Hook, es: seq<Event>)
    ensures h.enterSubs <= Run(h, es).hook.enterSubs
    ensures h.leaveSubs <= Run(h, es).hook.leaveSubs
    decreases |es|
  {
    if es != [] {
      RunKeepsSubscribers(Step(h, es[0]).hook, es[1..]);
    }
  }

  /** Neither set ever holds a callback twice. */
  lemma {:induction false} RunPreservesValid(h: Hook, es: seq<Event>)
    requires Valid(h)
    ensures Valid(Run(h, es).hook)
    decreases |es|
  {
    if es != [] {
      RunPreservesValid(Step(h, es[0]).hook, es[1..]);
    }
  }

  /** Subscribing to "entered" while active fires the callback once, at
      once, and a later "slide entered" does not fire it again. */
  lemma SubscribeEnterWhileActive(h: Hook, cb: CallbackId)
    requires h.active
    ensures Run(h, [SubscribeEnter(cb), HostEnter]).fired == [cb]
  {
    var o1 := Step(h, SubscribeEnter(cb));
    assert Run(o1.hook, [HostEnter]).fired == [];
    assert [SubscribeEnter(cb), HostEnter][1..] == [HostEnter];
  }

  /** Subscribing to "entered" while inactive defers the callback; two
      "slide entered" events in a row invoke it once, on the first. */
  lemma SubscribeEnterThenEnterTwice(h: Hook, cb: CallbackId)
    requires Valid(h) && h.mounted && !h.active
    ensures var o := Step(h, SubscribeEnter(cb));
            Run(h, [SubscribeEnter(cb), HostEnter, HostEnter]).fired == o.hook.enterSubs &&
            multiset(Run(h, [SubscribeEnter(cb), HostEnter, HostEnter]).fired)[cb] == 1
  {
    var o1 := Step(h, SubscribeEnter(cb));
    var o2 := Step(o1.hook, HostEnter);
    assert Run(o2.hook, [HostEnter]) == Outcome(o2.hook, []);
    assert [SubscribeEnter(cb), HostEnter, HostEnter][1..] == [HostEnter, HostEnter];
    assert [HostEnter, HostEnter][1..] == [HostEnter];
    StoredEnterFiresOncePerEntry(o1.hook, cb);
  }

  /** A stored enter subscriber fires again on every later entry: one
      subscription, then enter, leave, enter, invokes it twice. */
  lemma StoredEnterRefiresAfterLeave(h: Hook, cb: CallbackId)
    requires Valid(h) && h.mounted && !h.active && cb !in h.leaveSubs
    ensures multiset(Run(h, [SubscribeEnter(cb), HostEnter, HostLeave, HostEnter]).fired)[cb] == 2
  {
    var subs := SetAdd(h.enterSubs, cb);
    var stored := h.(enterSubs := subs);
    var entered := stored.(active := true);
    assert Step(h, SubscribeEnter(cb)) == Outcome(stored, []);
    assert Step(stored, HostEnter) == Outcome(entered, subs);
    assert Step(entered, HostLeave) == Outcome(stored, h.leaveSubs);
    var tail: seq<Event> := [HostEnter];
    RunCons(stored, HostEnter, []);
    assert [HostEnter] + [] == tail;
    assert Run(stored, tail) == Outcome(entered, subs);
    RunCons(entered, HostLeave, tail);
    RunCons(stored, HostEnter, [HostLeave] + tail);
    RunCons(h, SubscribeEnter(cb), [HostEnter] + ([HostLeave] + tail));
    assert [SubscribeEnter(cb)] + ([HostEnter] + ([HostLeave] + tail))
        == [SubscribeEnter(cb), HostEnter, HostLeave, HostEnter];
    var fired := subs + (h.leaveSubs + subs);
    assert Run(h, [SubscribeEnter(cb), HostEnter, HostLeave, HostEnter]).fired == [] + fired;
    NoDupsOccursOnce(subs, cb);
    assert multiset(fired) == multiset(subs) + multiset(h.leaveSubs) + multiset(subs);
  }

  /** Subscribing to "left" while inactive fires the callback at once and
      does not keep it: a later "slide left" does not fire it again. */
  lemma SubscribeLeaveWhileInactive(h: Hook, cb: CallbackId)
    requires h.mounted && !h.active && cb !in h.leaveSubs
    ensures Run(h, [SubscribeLeave(cb), HostLeave]).fired == [cb] + h.leaveSubs
    ensures multiset(Run(h, [SubscribeLeave(cb), HostLeave]).fired)[cb] == 1
  {
    var o1 := Step(h, SubscribeLeave(cb));
    assert Run(o1.hook, [HostLeave]).fired == h.leaveSubs;
    assert [SubscribeLeave(cb), HostLeave][1..] == [HostLeave];
    assert multiset([cb] + h.leaveSubs) == multiset([cb]) + multiset(h.leaveSubs);
  }
}
