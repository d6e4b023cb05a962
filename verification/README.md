# Slide-activation hook, modelled in Dafny

This project models `useSlideEvents` from components/use-slides.ts, the
slide-activation hook of a small set of presentation helpers. Each hook
instance is a two-state machine: the slide is either active or inactive. The
instance owns two insertion-ordered sets of callbacks: `oseSubs` for "slide
entered" and `oslSubs` for "slide left". Once the component is mounted, the
host's "slide entered" and "slide left" events drive the state. The returned
`onSlideEnter` / `onSlideLeave` either call the callback at once or store it,
depending on the current state.

Two modules:

- `SlideModel` (slide_model.dfy) is the value-level model. `Hook` is the
  state. `Event` lists what can happen to a hook. `Step` gives the next state
  and the callbacks invoked, in order. `Run` applies a sequence of events. The
  lemmas state what single events and short event sequences do.
- `SlideHook` (slide_hook.dfy) is the hook as the source has it: a class
  `SlideEvents` whose fields are updated in place. Its host handlers call
  every stored subscriber in a loop. Callbacks are opaque, so each invocation
  appends the callback's identifier to the field `log`. The postconditions
  of the five event methods (`Mount`, `HostEnter`, `HostLeave`,
  `OnSlideEnter`, `OnSlideLeave`) tie the new fields to `Step`'s new hook,
  and the new `log` to the old one plus `Step`'s invocations. The client
  method `SubscribeThenEnterTwice` shows a caller using those postconditions
  alone: a callback subscribed while inactive is logged once over two
  entries.

The code iterates each JS `Set` in insertion order, and the model keeps that
order.

## Model

| member | source | states |
|---|---|---|
| `SlideModel.SetAdd` | components/use-slides.ts:41 | Adding to a subscriber set keeps every existing element in place and makes `cb` a member. Nothing else becomes a member, re-adding a member changes nothing, and the set stays duplicate-free. |
| `SlideModel.Step` | components/use-slides.ts:12-49 | Every event keeps the sets duplicate-free and never removes or reorders subscribers. Only host events arriving after mount can change the state. Every invoked callback is either stored or the one just subscribed. |
| `SlideModel.EnterIsIdempotent` | components/use-slides.ts:14-16 | A second "slide entered" after a first one changes nothing: the state, both sets and the log stay the same. |
| `SlideModel.EnterFiresAllSubscribers` | components/use-slides.ts:18-22 | On a mounted, inactive hook, "slide entered" sets the state to active and invokes exactly the enter subscribers, in insertion order. Both sets are kept. |
| `SlideModel.LeaveIsUnconditional` | components/use-slides.ts:25-30 | On a mounted hook, "slide left" always sets the state to inactive and invokes every leave subscriber, even when the hook was already inactive. |
| `SlideModel.HostEventsBeforeMountAreIgnored` | components/use-slides.ts:12-32 | Before mount, neither host event changes anything or invokes anything. |
| `SlideModel.SubscribeEnterFiresOrStores` | components/use-slides.ts:36-42 | `onSlideEnter(cb)` invokes `cb` alone if and only if the hook is active, and then leaves the enter set unchanged. When the hook is inactive, it invokes nothing, and the new enter set is exactly `SetAdd` of the old one and `cb`. The state and the leave set never change. |
| `SlideModel.SubscribeLeaveFiresOrStores` | components/use-slides.ts:43-49 | `onSlideLeave(cb)` invokes `cb` alone if and only if the hook is inactive, and then leaves the leave set unchanged. When the hook is active, it invokes nothing, and the new leave set is exactly `SetAdd` of the old one and `cb`. The state and the enter set never change. |
| `SlideModel.Init` | components/use-slides.ts:6-10 | A fresh hook has `isActive` equal to the host's answer, is not mounted, has both sets empty, and satisfies the duplicate-free invariant. |
| `SlideModel.NoDupsOccursOnce` | components/use-slides.ts:9-10 | A `Set` iterated in order yields each member exactly once. |
| `SlideModel.StoredEnterFiresOncePerEntry` | components/use-slides.ts:20-22 | A stored enter subscriber is invoked exactly once by each inactive-to-active transition. |
| `SlideModel.StoredLeaveFiresOncePerLeave` | components/use-slides.ts:28-30 | On a mounted hook, a stored leave subscriber is invoked exactly once by each "slide left", whatever the state before it. |
| `SlideModel.RunKeepsSubscribers` | components/use-slides.ts:20-30 | No sequence of events removes or reorders a stored subscriber: both sets only grow. |
| `SlideModel.RunPreservesValid` | components/use-slides.ts:9-10 | Under any sequence of events, neither set ever holds a callback twice. |
| `SlideModel.SubscribeEnterWhileActive` | components/use-slides.ts:36-40 | Subscribing to "entered" while active, followed by a host "entered" event, invokes `cb` once, immediately, and nothing else. |
| `SlideModel.SubscribeEnterThenEnterTwice` | components/use-slides.ts:14-22 | Subscribing to "entered" while inactive, followed by two "entered" events, invokes the enter set once. `cb` fires exactly once. |
| `SlideModel.StoredEnterRefiresAfterLeave` | components/use-slides.ts:18-30 | A stored enter subscriber fires again on every later entry. After subscribe, enter, leave and enter, `cb` has fired exactly twice. |
| `SlideModel.SubscribeLeaveWhileInactive` | components/use-slides.ts:43-47 | Subscribing to "left" while inactive invokes `cb` at once and does not store it. A later "left" event invokes only the existing leave set, so `cb` fires exactly once. |
| `SlideHook.SlideEvents.constructor` | components/use-slides.ts:6-10 | `isActive` starts as the host's "is this slide active" answer. The hook is not yet mounted, both sets are empty and nothing has been invoked. |
| `SlideHook.SlideEvents.Invoke` | components/use-slides.ts:21 | Calling a callback appends it to the invocation log and changes nothing else. |
| `SlideHook.SlideEvents.Mount` | components/use-slides.ts:12 | Mounting registers the host handlers. Nothing else changes. |
| `SlideHook.SlideEvents.HostEnter` | components/use-slides.ts:13-23 | Before mount or while active, nothing changes. Otherwise the hook becomes active and the log grows by exactly the enter set. The new state is `Step`'s. |
| `SlideHook.SlideEvents.HostLeave` | components/use-slides.ts:25-31 | After mount, the hook becomes inactive and the log grows by exactly the leave set. Before mount, nothing changes. The new state is `Step`'s. |
| `SlideHook.SlideEvents.IsActive` | components/use-slides.ts:35 | The exposed `isActive` always equals the internal state, and reading it changes nothing. |
| `SlideHook.SlideEvents.OnSlideEnter` | components/use-slides.ts:36-42 | While active, `cb` is logged once and the enter set is unchanged. While inactive, nothing is logged and the enter set becomes `SetAdd` of the old one and `cb`. The state is unchanged in both cases. |
| `SlideHook.SlideEvents.OnSlideLeave` | components/use-slides.ts:43-49 | While inactive, `cb` is logged once and the leave set is unchanged. While active, nothing is logged and the leave set becomes `SetAdd` of the old one and `cb`. The state is unchanged in both cases. |

## Left out

- components/rho.ts: the distance weights need `Math.sqrt` and `Math.pow` on floating point, which Dafny reals cannot express.
- components/use-mouse.ts: a wrapper over `@vueuse/core`'s `useMouse`. Its only logic is a DOM `instanceof MouseEvent` test, and it does no tracking of its own.
- setup/unocss.ts: configuration plumbing that spreads a framework config and appends a preset from an external library. It has no logic of its own.
- Vue's `ref`, `computed` and `onMounted` are not modelled as libraries. `isActive` is a plain field read through `IsActive`. `onMounted` is the explicit `Mount` method. Vue runs it once per instance, and a repeated `Mount` in the model changes nothing.
- The `@slidev/client` event bus and `useIsSlideActive` are not modelled. The host's initial answer is the constructor's parameter, and the host's events are the `HostEnter` and `HostLeave` methods.
- Callback bodies are not modelled. Callbacks are opaque identifiers, and calling one only appends it to `log`. A callback that subscribes or fires events while a set is being iterated (re-entrancy and JS `Set` iteration under mutation) is not modelled.
- A callback that throws is not modelled, because `Invoke` always returns. In the code, a subscriber that throws inside a host handler (components/use-slides.ts:21, :29) stops the `for…of` loop after `isActive` has already been written. The remaining subscribers then do not run. A callback that throws when called at once by `onSlideEnter` or `onSlideLeave` (lines 38 and 45) passes the exception to the caller.
- Unsubscription and teardown are not modelled, because the hook offers neither.
