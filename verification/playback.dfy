/** The transient playback state of the player component and its event
    handlers (components/PlayerContent.tsx). The `<audio>` element is an
    abstract record; the commands sent to it are remembered in
    `lastCommand`. */
module Playback {
  import opened Optional

  /** The last command the component sent to the audio element. */
  datatype Command = NoCommand | Play | Pause

  /** The audio element as seen by the handlers. Its own volume is not
      kept: only the volume-sync effect writes it, and that effect is not
      part of this model. */
  datatype Audio = Audio(position: real, duration: real, lastCommand: Command)

  /** The component's React state plus the element behind `audioRef`, which
      may be absent. */
  datatype Player = Player(
    isPlaying: bool,
    volume: real,
    currentTime: real,
    duration: real,
    audio: Option<Audio>)

  /** The state on mount: full volume, paused, at zero, zero duration. */
  function Initial(audio: Option<Audio>): (p: Player)
    ensures !p.isPlaying && p.volume == 1.0 && p.currentTime == 0.0 && p.duration == 0.0
  {
    Player(false, 1.0, 0.0, 0.0, audio)
  }

  /** The displayed position agrees with the element's position. */
  predicate Mirrored(p: Player) {
    p.audio.Some? ==> p.currentTime == p.audio.value.position
  }

  /** The last command sent agrees with the displayed play state. */
  predicate CommandAgrees(p: Player) {
    p.audio.Some? ==> (p.audio.value.lastCommand == Play <==> p.isPlaying)
  }

  /** The volume is within the range the audio element accepts. */
  predicate VolumeInRange(p: Player) {
    0.0 <= p.volume <= 1.0
  }

  /** `togglePlayPause`: the flag always flips; with an element bound, it is
      told to pause when the component thought it was playing and to play
      otherwise. */
  function TogglePlayPause(p: Player): (r: Player)
    ensures r.isPlaying == !p.isPlaying
    ensures r.volume == p.volume && r.currentTime == p.currentTime && r.duration == p.duration
    ensures r.audio.Some? <==> p.audio.Some?
    ensures r.audio.Some? ==> r.audio.value == p.audio.value.(lastCommand := r.audio.value.lastCommand)
    ensures r.audio.Some? ==> r.audio.value.lastCommand != NoCommand
    ensures CommandAgrees(r)
  {
    var audio :=
      match p.audio
      case None => None
      case Some(a) => Some(a.(lastCommand := if p.isPlaying then Pause else Play));
    p.(isPlaying := !p.isPlaying, audio := audio)
  }

  /** `handleSeek(value)`: with an element bound, moves it and the display
      to `value`; without one, nothing happens. */
  function HandleSeek(p: Player, value: real): (r: Player)
    ensures p.audio.None? ==> r == p
    ensures p.audio.Some? ==> r.currentTime == value && r.audio.Some? && r.audio.value.position == value
    ensures r.audio.Some? ==> r.audio.value == p.audio.value.(position := r.audio.value.position)
    ensures r.isPlaying == p.isPlaying && r.volume == p.volume && r.duration == p.duration
    ensures Mirrored(r) <==> p.audio.Some? || Mirrored(p)
  {
    match p.audio
    case None => p
    case Some(a) => p.(currentTime := value, audio := Some(a.(position := value)))
  }

  /** `updateTime`, on `timeupdate`: copies the element's position into the
      display. */
  function UpdateTime(p: Player): (r: Player)
    ensures Mirrored(r)
    ensures r.audio == p.audio
    ensures r.isPlaying == p.isPlaying && r.volume == p.volume && r.duration == p.duration
    ensures p.audio.None? ==> r == p
  {
    match p.audio
    case None => p
    case Some(a) => p.(currentTime := a.position)
  }

  /** `onLoadedMetadata`: copies the element's duration into the display. */
  function OnLoadedMetadata(p: Player): (r: Player)
    ensures p.audio.Some? ==> r.duration == p.audio.value.duration
    ensures p.audio.None? ==> r == p
    ensures r.audio == p.audio
    ensures r.isPlaying == p.isPlaying && r.volume == p.volume && r.currentTime == p.currentTime
  {
    match p.audio
    case None => p
    case Some(a) => p.(duration := a.duration)
  }

  /** `onSongEnd`, on `ended`: stops and rewinds both the display and the
      element, which stays bound so the track can be replayed. */
  function OnSongEnd(p: Player): (r: Player)
    ensures !r.isPlaying && r.currentTime == 0.0
    ensures r.audio.Some? <==> p.audio.Some?
    ensures r.audio.Some? ==> r.audio.value == p.audio.value.(position := 0.0)
    ensures r.volume == p.volume && r.duration == p.duration
    ensures Mirrored(r)
  {
    var audio :=
      match p.audio
      case None => None
      case Some(a) => Some(a.(position := 0.0));
    p.(isPlaying := false, currentTime := 0.0, audio := audio)
  }

  /** `toggleMute`: silent becomes full volume, any other volume becomes
      silent; the previous level is not remembered. */
  function ToggleMute(p: Player): (r: Player)
    ensures r.volume == 0.0 || r.volume == 1.0
    ensures r.volume == 0.0 <==> p.volume != 0.0
    ensures r == p.(volume := r.volume)
  {
    p.(volume := if p.volume == 0.0 then 1.0 else 0.0)
  }

  /** Two toggles restore the play flag; with an element bound, the last
      command then matches the original flag. */
  lemma ToggleTwice(p: Player)
    ensures var r := TogglePlayPause(TogglePlayPause(p));
      && r.isPlaying == p.isPlaying
      && r.volume == p.volume && r.currentTime == p.currentTime && r.duration == p.duration
      && (p.audio.None? ==> r == p)
      && (p.audio.Some? ==> r.audio == Some(p.audio.value.(lastCommand := if p.isPlaying then Play else Pause)))
  {
  }

  /** Without an element bound the flag still flips, although nothing is
      commanded. */
  lemma ToggleWithoutAudio(p: Player)
    requires p.audio.None?
    ensures TogglePlayPause(p) == p.(isPlaying := !p.isPlaying)
  {
  }

  /** Seeking to the same place twice is the same as seeking once, and of
      two seeks only the last one matters. */
  lemma SeekIdempotent(p: Player, u: real, v: real)
    ensures HandleSeek(HandleSeek(p, v), v) == HandleSeek(p, v)
    ensures HandleSeek(HandleSeek(p, u), v) == HandleSeek(p, v)
  {
  }

  /** A `timeupdate` arriving right after a seek changes nothing. */
  lemma SeekThenTimeUpdate(p: Player, v: real)
    ensures UpdateTime(HandleSeek(p, v)) == HandleSeek(p, v)
  {
  }

  /** Repeated `timeupdate` or `loadedmetadata` events without a change in
      the element have no further effect. */
  lemma ElementEventsIdempotent(p: Player)
    ensures UpdateTime(UpdateTime(p)) == UpdateTime(p)
    ensures OnLoadedMetadata(OnLoadedMetadata(p)) == OnLoadedMetadata(p)
  {
  }

  /** The end-of-track handler is idempotent, and a toggle after it replays
      from the beginning without rebinding the element. */
  lemma EndThenReplay(p: Player)
    ensures OnSongEnd(OnSongEnd(p)) == OnSongEnd(p)
    ensures var r := TogglePlayPause(OnSongEnd(p));
      && r.isPlaying
      && r.currentTime == 0.0
      && (p.audio.Some? ==> r.audio.Some? && r.audio.value.position == 0.0 && r.audio.value.lastCommand == Play)
  {
  }

  /** Muting twice restores the volume exactly when it started at 0 or 1;
      from any other level it ends at full volume. */
  lemma MuteTwice(p: Player)
    ensures ToggleMute(ToggleMute(p)) == p <==> p.volume == 0.0 || p.volume == 1.0
    ensures p.volume != 0.0 ==> ToggleMute(p).volume == 0.0 && ToggleMute(ToggleMute(p)).volume == 1.0
  {
    if ToggleMute(ToggleMute(p)) == p {
      assert ToggleMute(ToggleMute(p)).volume == p.volume;
    }
  }

  /** The element advancing on its own while it plays: it now reports
      `position`, and the display still shows the old time until the next
      `timeupdate` reaches `UpdateTime`. */
  function ElementProgress(p: Player, position: real): (r: Player)
    ensures p.audio.None? ==> r == p
    ensures p.audio.Some? ==> r.audio == Some(p.audio.value.(position := position))
    ensures r.isPlaying == p.isPlaying && r.volume == p.volume
    ensures r.currentTime == p.currentTime && r.duration == p.duration
  {
    match p.audio
    case None => p
    case Some(a) => p.(audio := Some(a.(position := position)))
  }

  /** While the element advances, the display lags behind it, and the
      `timeupdate` handler is what brings the display up to date. */
  lemma ProgressLagsUntilTimeUpdate(p: Player, t: real)
    requires p.audio.Some?
    ensures t != p.currentTime ==> !Mirrored(ElementProgress(p, t))
    ensures UpdateTime(ElementProgress(p, t)).currentTime == t
    ensures Mirrored(UpdateTime(ElementProgress(p, t)))
  {
  }

  /** The inputs the component reacts to: clicks and drags from the user,
      the element advancing on its own, and events from the element. */
  datatype Action =
    | TogglePlay
    | Seek(value: real)
    | Mute
    | Progress(position: real)
    | TimeUpdate
    | LoadedMetadata
    | Ended

  /** The inputs after which the display equals the element's position. */
  predicate Synchronizing(a: Action) {
    a.Seek? || a.TimeUpdate? || a.Ended?
  }

  function Step(p: Player, a: Action): (r: Player)
    ensures r.audio.Some? <==> p.audio.Some?
  {
    match a
    case TogglePlay => TogglePlayPause(p)
    case Seek(v) => HandleSeek(p, v)
    case Mute => ToggleMute(p)
    case Progress(t) => ElementProgress(p, t)
    case TimeUpdate => UpdateTime(p)
    case LoadedMetadata => OnLoadedMetadata(p)
    case Ended => OnSongEnd(p)
  }

  function Run(p: Player, actions: seq<Action>): (r: Player)
    ensures r.audio.Some? <==> p.audio.Some?
    decreases |actions|
  {
    if |actions| == 0 then p else Run(Step(p, actions[0]), actions[1..])
  }

  /** A seek, a `timeupdate` or the end of the track brings the display in
      line with the element from any state; the other inputs except the
      element's own progress keep it in line. */
  lemma StepMirrors(p: Player, a: Action)
    ensures Synchronizing(a) ==> Mirrored(Step(p, a))
    ensures Mirrored(p) && !a.Progress? ==> Mirrored(Step(p, a))
  {
  }

  lemma {:induction false} RunAppend(p: Player, actions: seq<Action>, a: Action)
    ensures Run(p, actions + [a]) == Step(Run(p, actions), a)
    decreases |actions|
  {
    if |actions| > 0 {
      assert (actions + [a])[1..] == actions[1..] + [a];
      RunAppend(Step(p, actions[0]), actions[1..], a);
    }
  }

  /** Whatever happened before, the display equals the element's position
      after a run that ends with a seek, a `timeupdate` or the end of the
      track. */
  lemma RunEndsMirrored(p: Player, actions: seq<Action>)
    requires |actions| > 0 && Synchronizing(actions[|actions| - 1])
    ensures Mirrored(Run(p, actions))
  {
    var n := |actions|;
    assert actions == actions[..n - 1] + [actions[n - 1]];
    RunAppend(p, actions[..n - 1], actions[n - 1]);
    StepMirrors(Run(p, actions[..n - 1]), actions[n - 1]);
  }

  lemma StepPreservesVolume(p: Player, a: Action)
    requires VolumeInRange(p)
    ensures VolumeInRange(Step(p, a))
  {
  }

  /** Every sequence of inputs keeps the volume within [0, 1]. */
  lemma {:induction false} RunPreservesVolume(p: Player, actions: seq<Action>)
    requires VolumeInRange(p)
    ensures VolumeInRange(Run(p, actions))
    decreases |actions|
  {
    if |actions| > 0 {
      StepPreservesVolume(p, actions[0]);
      RunPreservesVolume(Step(p, actions[0]), actions[1..]);
    }
  }

  /** On mount the volume is in range, and the display agrees with an
      element that starts at zero. */
  lemma InitialConsistent(audio: Option<Audio>)
    requires audio.Some? ==> audio.value.position == 0.0
    ensures VolumeInRange(Initial(audio)) && Mirrored(Initial(audio))
  {
  }

  /** Once toggled, the command agrees with the flag, and every input but
      the end of the track keeps it that way. */
  lemma StepPreservesCommandAgrees(p: Player, a: Action)
    requires CommandAgrees(p)
    requires !a.Ended?
    ensures CommandAgrees(Step(p, a))
  {
  }

  /** The end of the track is the one input that leaves the element's last
      command (play) disagreeing with the flag: the element stopped on its
      own. */
  lemma EndedAfterPlay(p: Player)
    requires p.audio.Some? && p.audio.value.lastCommand == Play
    ensures !CommandAgrees(OnSongEnd(p))
  {
  }
}
