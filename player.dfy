/** The play/pause clock of the player widget (src/widgets/player.rs): a
    state of two fields from which the progress in seconds is computed at
    any time, and the click handler that switches between playing and
    paused without a jump in the reported progress. */
module Player {

  datatype Option<T> = None | Some(value: T) {
    /** Option::unwrap_or */
    function UnwrapOr(default: T): T
    {
      match this
      case Some(v) => v
      case None => default
    }
  }

  /** While playing, lastPauseTime holds the clock reading at which progress
      was zero; while paused, it holds the frozen progress. */
  datatype PlayerState = PlayerState(isPlaying: bool, lastPauseTime: Option<real>) {

    /** Progress in seconds at time currentTime, adjusted for the last pause. */
    function Progress(currentTime: real): (p: real)
      ensures isPlaying ==> p == currentTime - lastPauseTime.UnwrapOr(0.0)
      ensures !isPlaying ==> p == lastPauseTime.UnwrapOr(0.0)
    {
      if isPlaying then currentTime - lastPauseTime.UnwrapOr(0.0) else lastPauseTime.UnwrapOr(0.0)
    }

    /** The state after a click on the play/pause button at currentTime:
        playing and paused swap, and the progress reported at the moment of
        the click is the same before and after it. */
    function Toggled(currentTime: real): (s: PlayerState)
      ensures s.isPlaying == !isPlaying
      ensures s.lastPauseTime.Some?
      ensures s.Progress(currentTime) == Progress(currentTime)
    {
      PlayerState(!isPlaying, Some(currentTime - lastPauseTime.UnwrapOr(0.0)))
    }
  }

  /** The derived Default: not playing, no pause time. */
  const Initial: PlayerState := PlayerState(false, None)

  /** The initial state reports zero progress at every time. */
  lemma InitialProgressIsZero(t: real)
    ensures Initial.Progress(t) == 0.0
  {
  }

  /** A paused clock is frozen at its recorded pause time (or 0). */
  lemma PausedProgressIsFrozen(s: PlayerState, t: real, t': real)
    requires !s.isPlaying
    ensures s.Progress(t) == s.Progress(t') == s.lastPauseTime.UnwrapOr(0.0)
  {
  }

  /** A playing clock advances one for one with the time. */
  lemma PlayingProgressAdvances(s: PlayerState, t: real, d: real)
    requires s.isPlaying
    ensures s.Progress(t + d) == s.Progress(t) + d
  {
  }

  /** After a click at t the clock carries on from the progress it showed
      at t: frozen there if it was playing, advancing from there if it was
      paused. */
  lemma ToggleContinuesFromClick(s: PlayerState, t: real, d: real)
    ensures s.isPlaying ==> s.Toggled(t).Progress(t + d) == s.Progress(t)
    ensures !s.isPlaying ==> s.Toggled(t).Progress(t + d) == s.Progress(t) + d
  {
  }

  /** Two clicks at the same instant restore the playing flag and the
      progress at every later time; only a missing pause time becomes
      Some(0). */
  lemma DoubleToggle(s: PlayerState, t: real)
    ensures var s2 := s.Toggled(t).Toggled(t);
      && s2.isPlaying == s.isPlaying
      && s2.lastPauseTime == Some(s.lastPauseTime.UnwrapOr(0.0))
      && forall t' :: s2.Progress(t') == s.Progress(t')
  {
  }

  /** The player widget's controller, over the state it borrows mutably
      (`is_playing`, `last_pause_time`) and the progress it writes back
      (`progress_seconds`). */
  class Controller {
    var isPlaying: bool
    var lastPauseTime: Option<real>
    var progressSeconds: real

    function State(): PlayerState
      reads this
    {
      PlayerState(isPlaying, lastPauseTime)
    }

    constructor (state: PlayerState, progress: real)
      ensures State() == state && progressSeconds == progress
    {
      isPlaying := state.isPlaying;
      lastPauseTime := state.lastPauseTime;
      progressSeconds := progress;
    }

    /** One frame of Controller::ui at time currentTime; `clicked` says
        whether the play/pause button was clicked in this frame. The
        progress is reported before the click is handled, and the new state
        reports that same progress at currentTime. */
    method Ui(currentTime: real, clicked: bool)
      modifies this
      ensures progressSeconds == old(State()).Progress(currentTime)
      ensures State() == if clicked then old(State()).Toggled(currentTime) else old(State())
      ensures State().Progress(currentTime) == progressSeconds
    {
      progressSeconds := State().Progress(currentTime);
      if clicked {
        isPlaying := !isPlaying;
        lastPauseTime := Some(currentTime - lastPauseTime.UnwrapOr(0.0));
      }
    }
  }
}
