/** The hook instance returned by `useSlideEvents` (components/use-slides.ts)
    as an object whose fields the host events and the subscription calls
    update in place. Each method is tied to `SlideModel.Step`: the new
    fields are `Step`'s new hook and `log` grows by `Step`'s invocations. */
module SlideHook {
  import opened SlideModel

  class SlideEvents {
    /** `isActive` */
    var active: bool
    /** whether `onMounted` has run, so that the host handlers are registered */
    var mounted: bool
    /** `oseSubs`, in insertion order */
    var enterSubs: seq<CallbackId>
    /** `oslSubs`, in insertion order */
    var leaveSubs: seq<CallbackId>
    /** every callback invocation so far, in order */
    var log: seq<CallbackId>

    ghost predicate Valid()
      reads this
    {
      SlideModel.Valid(Model())
    }

    /** The abstract state of this instance. */
    function Model(): (h: Hook)
      reads this
    {
      Hook(active, mounted, enterSubs, leaveSubs)
    }

    /** `useSlideEvents()`: `isActive` starts as the host's "is this slide
        active" answer, both sets are empty, nothing has run. */
    constructor (initiallyActive: bool)
      ensures Valid() && Model() == Init(initiallyActive)
      ensures active == initiallyActive && !mounted
      ensures enterSubs == [] && leaveSubs == [] && log == []
    {
      active := initiallyActive;
      mounted := false;
      enterSubs := [];
      leaveSubs := [];
      log := [];
    }

    /** Calling a subscriber: the only effect the model sees is the entry
        in the log. */
    method Invoke(cb: CallbackId)
      modifies this`log
      ensures log == old(log) + [cb]
    {
      log := log + [cb];
    }

    /** The component is mounted and `onMounted` registers both host
        handlers. */
    method Mount()
      requires Valid()
      modifies this`mounted
      ensures Valid() && mounted
      ensures Model() == Step(old(Model()), SlideModel.Mount).hook
    {
      mounted := true;
    }

    /** The host's "slide entered" handler. */
    method HostEnter()
      requires Valid()
      modifies this`active, this`log
      ensures Valid()
      ensures !old(mounted) || old(active) ==> active == old(active) && log == old(log)
      ensures old(mounted) && !old(active) ==> active && log == old(log) + enterSubs
      ensures Model() == Step(old(Model()), SlideModel.HostEnter).hook
      ensures log == old(log) + Step(old(Model()), SlideModel.HostEnter).fired
    {
      if !mounted || active {
        return;
      }
      active := true;
      for i := 0 to |enterSubs|
        invariant active
        invariant log == old(log) + enterSubs[..i]
      {
        Invoke(enterSubs[i]);
      }
    }

    /** The host's "slide left" handler. */
    method HostLeave()
      requires Valid()
      modifies this`active, this`log
      ensures Valid()
      ensures !old(mounted) ==> active == old(active) && log == old(log)
      ensures old(mounted) ==> !active && log == old(log) + leaveSubs
      ensures Model() == Step(old(Model()), SlideModel.HostLeave).hook
      ensures log == old(log) + Step(old(Model()), SlideModel.HostLeave).fired
    {
      if !mounted {
        return;
      }
      active := false;
      for i := 0 to |leaveSubs|
        invariant !active
        invariant log == old(log) + leaveSubs[..i]
      {
        Invoke(leaveSubs[i]);
      }
    }

    /** The returned `isActive`: a read-only view of the state. */
    method IsActive() returns (b: bool)
      ensures b == active
    {
      b := active;
    }

    /** The returned `onSlideEnter(callback)`. */
    method OnSlideEnter(cb: CallbackId)
      requires Valid()
      modifies this`enterSubs, this`log
      ensures Valid()
      ensures old(active) ==> enterSubs == old(enterSubs) && log == old(log) + [cb]
      ensures !old(active) ==> log == old(log) && enterSubs == SetAdd(old(enterSubs), cb)
      ensures Model() == Step(old(Model()), SubscribeEnter(cb)).hook
      ensures log == old(log) + Step(old(Model()), SubscribeEnter(cb)).fired
    {
      if active {
        Invoke(cb);
        return;
      }
      enterSubs := SetAdd(enterSubs, cb);
    }

    /** The returned `onSlideLeave(callback)`. */
    method OnSlideLeave(cb: CallbackId)
      requires Valid()
      modifies this`leaveSubs, this`log
      ensures Valid()
      ensures !old(active) ==> leaveSubs == old(leaveSubs) && log == old(log) + [cb]
      ensures old(active) ==> log == old(log) && leaveSubs == SetAdd(old(leaveSubs), cb)
      ensures Model() == Step(old(Model()), SubscribeLeave(cb)).hook
      ensures log == old(log) + Step(old(Model()), SubscribeLeave(cb)).fired
    {
      if !active {
        Invoke(cb);
        return;
      }
      leaveSubs := SetAdd(leaveSubs, cb);
    }
  }

  /** A client of the hook: a callback subscribed to "entered" while the
      slide is inactive fires on the first entry only, however often the
      host repeats the event. */
  method SubscribeThenEnterTwice(c: CallbackId)
  {
    var hook := new SlideEvents(false);
    hook.Mount();
    hook.OnSlideEnter(c);
    hook.HostEnter();
    hook.HostEnter();
    assert hook.log == [c];
  }
}
