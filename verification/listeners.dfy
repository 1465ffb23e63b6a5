/** The mount effect of the player component: it subscribes the handlers to
    the audio element's events, and its cleanup unsubscribes them. The
    subscriptions are a set, as `addEventListener` ignores a second
    registration of the same handler. `bound` says whether `audioRef`
    holds an element when the effect or its cleanup runs. */
module Listeners {
  import opened Playback

  /** The element events the component listens to. */
  datatype EventKind = TimeUpdateEvent | LoadedMetadataEvent | EndedEvent

  const AllEvents: set<EventKind> := {TimeUpdateEvent, LoadedMetadataEvent, EndedEvent}

  /** The handler registered for each event. */
  function Handler(e: EventKind, p: Player): Player {
    match e
    case TimeUpdateEvent => UpdateTime(p)
    case LoadedMetadataEvent => OnLoadedMetadata(p)
    case EndedEvent => OnSongEnd(p)
  }

  /** Delivers an event: only a subscribed handler runs. */
  function Dispatch(subscribed: set<EventKind>, e: EventKind, p: Player): (r: Player)
    ensures e !in subscribed ==> r == p
    ensures e == EndedEvent && e in subscribed ==> !r.isPlaying && r.currentTime == 0.0
  {
    if e in subscribed then Handler(e, p) else p
  }

  /** The effect body: all three handlers are added when an element is
      bound. */
  function Subscribe(bound: bool, subscribed: set<EventKind>): (r: set<EventKind>)
    ensures bound ==> r == subscribed + AllEvents
    ensures !bound ==> r == subscribed
  {
    if bound then subscribed + {TimeUpdateEvent, LoadedMetadataEvent, EndedEvent} else subscribed
  }

  /** The cleanup as written: it removes the `timeupdate` and
      `loadedmetadata` handlers but not the `ended` one. */
  function UnsubscribeAsWritten(bound: bool, subscribed: set<EventKind>): (r: set<EventKind>)
    ensures r <= subscribed
    ensures EndedEvent in subscribed ==> EndedEvent in r
  {
    if bound then subscribed - {TimeUpdateEvent, LoadedMetadataEvent} else subscribed
  }

  /** The cleanup as intended: it removes every handler from the element the
      effect subscribed to, as it would if the effect kept that element in a
      local variable instead of reading `audioRef` again. Whether `audioRef` still holds the element
      when the cleanup runs no longer matters; `boundAtMount` says whether
      the effect found an element. */
  function UnsubscribeCaptured(boundAtMount: bool, subscribed: set<EventKind>): (r: set<EventKind>)
    ensures r <= subscribed
    ensures boundAtMount ==> r !! AllEvents
  {
    if boundAtMount then subscribed - {TimeUpdateEvent, LoadedMetadataEvent, EndedEvent} else subscribed
  }

  /** As written, a cleanup that runs while the element is still bound
      leaves the `ended` handler attached to it: an `ended` event delivered
      to the element still invokes `onSongEnd`. What that invocation does
      to a component that is gone is left to React and not modelled. */
  lemma CleanupLeaksEnded(p: Player)
    ensures UnsubscribeAsWritten(true, Subscribe(true, {})) == {EndedEvent}
    ensures Dispatch(UnsubscribeAsWritten(true, Subscribe(true, {})), EndedEvent, p) == OnSongEnd(p)
  {
    assert UnsubscribeAsWritten(true, Subscribe(true, {})) == {EndedEvent};
  }

  /** A cleanup that runs after `audioRef` has been cleared removes nothing
      as written, whereas the cleanup that kept the element from mount
      still removes every handler. */
  lemma CleanupWithoutElement(subscribed: set<EventKind>)
    ensures UnsubscribeAsWritten(false, subscribed) == subscribed
    ensures UnsubscribeCaptured(true, subscribed) == subscribed - AllEvents
  {
  }

  /** With the intended cleanup, a mount followed by an unmount leaves no
      handler attached, so no later event reaches the component, whatever
      `audioRef` holds when the cleanup runs. As written, `ended` stays
      attached in either case. */
  lemma CleanupReleasesAll(boundAtMount: bool, refAtCleanup: bool, e: EventKind, p: Player)
    ensures UnsubscribeCaptured(boundAtMount, Subscribe(boundAtMount, {})) == {}
    ensures Dispatch(UnsubscribeCaptured(boundAtMount, Subscribe(boundAtMount, {})), e, p) == p
    ensures boundAtMount ==> EndedEvent in UnsubscribeAsWritten(refAtCleanup, Subscribe(boundAtMount, {}))
  {
    assert UnsubscribeCaptured(boundAtMount, Subscribe(boundAtMount, {})) == {};
  }
}
