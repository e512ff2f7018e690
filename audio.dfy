/**
 * The transport record of src/context/AudioContext.tsx: play flag, progress,
 * duration, the last seek request and the short-lived "seeking" flag. The
 * one-second timer that `seekTo` starts is an explicit event: the state counts
 * the resets that are scheduled and have not fired yet, and `ResetTimerFires` is
 * one of them firing.
 */
module Audio {
  import opened Maybe

  datatype TransportState = TransportState(
    isPlaying: bool,
    progress: real,
    duration: real,
    seekRequest: Option<real>,
    isSeeking: bool,
    pendingResets: nat)

  /** The provider's initial state: paused, at 0 of 0 seconds, no seek, not seeking. */
  function Initial(): (s: TransportState)
    ensures !s.isPlaying && s.progress == 0.0 && s.duration == 0.0
    ensures s.seekRequest == None && !s.isSeeking && s.pendingResets == 0
  {
    TransportState(false, 0.0, 0.0, None, false, 0)
  }

  /** `togglePlay`: flips the play flag, whether or not anything is queued. */
  function Toggled(s: TransportState): TransportState {
    s.(isPlaying := !s.isPlaying)
  }

  /** `seekTo(time)`: request, optimistic progress and seeking flag at once; one reset scheduled. */
  function Sought(s: TransportState, time: real): TransportState {
    s.(seekRequest := Some(time), progress := time, isSeeking := true, pendingResets := s.pendingResets + 1)
  }

  /** One scheduled reset fires 1000 ms after its seek: the flag drops, whatever came since. */
  function AfterReset(s: TransportState): TransportState
    requires s.pendingResets > 0
  {
    s.(isSeeking := false, pendingResets := s.pendingResets - 1)
  }

  function WithPlaying(s: TransportState, playing: bool): TransportState { s.(isPlaying := playing) }
  function WithProgress(s: TransportState, progress: real): TransportState { s.(progress := progress) }
  function WithDuration(s: TransportState, duration: real): TransportState { s.(duration := duration) }

  /** Everything that can happen to the transport. */
  datatype Event =
    | TogglePlayEvent
    | SetIsPlayingEvent(playing: bool)
    | SetProgressEvent(progress: real)
    | SetDurationEvent(duration: real)
    | SeekToEvent(time: real)
    | ResetFiresEvent

  /** One event; a reset with none scheduled cannot fire and changes nothing. */
  function Step(s: TransportState, e: Event): TransportState {
    match e
    case TogglePlayEvent => Toggled(s)
    case SetIsPlayingEvent(b) => WithPlaying(s, b)
    case SetProgressEvent(p) => WithProgress(s, p)
    case SetDurationEvent(d) => WithDuration(s, d)
    case SeekToEvent(t) => Sought(s, t)
    case ResetFiresEvent => if s.pendingResets > 0 then AfterReset(s) else s
  }

  function Run(s: TransportState, events: seq<Event>): TransportState
    decreases |events|
  {
    if events == [] then s else Run(Step(s, events[0]), events[1..])
  }

  /** The seeking flag is only ever up while a reset is still scheduled. */
  predicate SeekingBounded(s: TransportState) {
    s.isSeeking ==> s.pendingResets > 0
  }

  /** Every run of events from a bounded state keeps the seeking flag bounded: it never sticks. */
  lemma {:induction false} RunKeepsSeekingBounded(s: TransportState, events: seq<Event>)
    requires SeekingBounded(s)
    ensures SeekingBounded(Run(s, events))
    decreases |events|
  {
    if events != [] {
      RunKeepsSeekingBounded(Step(s, events[0]), events[1..]);
    }
  }

  /** Once every scheduled reset has fired, nothing is seeking, in any run from the initial state. */
  lemma NoPendingResetMeansNotSeeking(events: seq<Event>)
    ensures Run(Initial(), events).pendingResets == 0 ==> !Run(Initial(), events).isSeeking
  {
    RunKeepsSeekingBounded(Initial(), events);
  }

  /** Toggling twice restores the state. */
  lemma ToggleTwice(s: TransportState)
    ensures Toggled(Toggled(s)) == s
  {
  }

  /** A seek changes neither the play flag nor the duration. */
  lemma SeekKeepsPlayAndDuration(s: TransportState, time: real)
    ensures Sought(s, time).isPlaying == s.isPlaying && Sought(s, time).duration == s.duration
    ensures Sought(s, time).progress == time && Sought(s, time).seekRequest == Some(time)
  {
  }

  /** Timers are not cancelled: after two seeks, the first seek's reset already clears the flag. */
  lemma FirstResetClearsSecondSeek(s: TransportState, t1: real, t2: real)
    ensures var u := AfterReset(Sought(Sought(s, t1), t2));
            !u.isSeeking && u.pendingResets == s.pendingResets + 1 && u.progress == t2
  {
  }

  /** The transport object the provider holds; its methods are the provider's callbacks. */
  class Transport {
    var isPlaying: bool
    var progress: real
    var duration: real
    var seekRequest: Option<real>
    var isSeeking: bool
    var pendingResets: nat

    function State(): TransportState
      reads this
    {
      TransportState(isPlaying, progress, duration, seekRequest, isSeeking, pendingResets)
    }

    /** Only the play flag differs from the pre-state. */
    twostate predicate OnlyPlayFlagChanged()
      reads this
    {
      progress == old(progress) && duration == old(duration) && seekRequest == old(seekRequest)
      && isSeeking == old(isSeeking) && pendingResets == old(pendingResets)
    }

    constructor ()
      ensures State() == Initial()
    {
      isPlaying, progress, duration := false, 0.0, 0.0;
      seekRequest, isSeeking, pendingResets := None, false, 0;
    }

    method TogglePlay()
      modifies this
      ensures State() == Toggled(old(State()))
    {
      isPlaying := !isPlaying;
    }

    method SeekTo(time: real)
      modifies this
      ensures State() == Sought(old(State()), time)
    {
      seekRequest := Some(time);
      progress := time;
      isSeeking := true;
      pendingResets := pendingResets + 1;
    }

    /** One scheduled reset fires. */
    method ResetTimerFires()
      requires pendingResets > 0
      modifies this
      ensures State() == AfterReset(old(State()))
    {
      isSeeking := false;
      pendingResets := pendingResets - 1;
    }

    method SetIsPlaying(playing: bool)
      modifies this
      ensures State() == WithPlaying(old(State()), playing)
      ensures isPlaying == playing && OnlyPlayFlagChanged()
    {
      isPlaying := playing;
    }

    method SetProgress(p: real)
      modifies this
      ensures State() == WithProgress(old(State()), p)
    {
      progress := p;
    }

    method SetDuration(d: real)
      modifies this
      ensures State() == WithDuration(old(State()), d)
    {
      duration := d;
    }
  }

  /** Two seeks, then the first reset fires: the flag is down although the second reset is pending. */
  method SeekTwiceFirstResetFires(t1: real, t2: real) returns (seeking: bool, pending: nat, progress: real)
    ensures !seeking && pending == 1 && progress == t2
  {
    var t := new Transport();
    t.SeekTo(t1);
    t.SeekTo(t2);
    t.ResetTimerFires();
    seeking, pending, progress := t.isSeeking, t.pendingResets, t.progress;
  }
}
