/** Model of ui/Chronometer.java: a count-up text label whose flags decide when
    its two self-rescheduling handler messages (TICK, which re-renders the text,
    and FLICKER, which blinks the label while paused) are pending.
    The clock is the `now` parameter, each handler queue is a count of pending
    messages, the tick listener is a count of dispatches, Log.w is a count of
    warnings, and java.util.Formatter applied to the user's template is the
    foreign function `formatter`. */
module ChronometerWidget {
  import opened Wrappers
  import opened TimeUtils

  /** View.VISIBLE, View.INVISIBLE and View.GONE. */
  datatype Visibility = Visible | Invisible | Gone

  /** What java.util.Formatter does with the user's template: it either yields
      the substituted text or throws IllegalFormatException. */
  datatype FormatResult = Formatted(output: string) | IllegalFormat

  /** The visibility the flicker step sets: VISIBLE becomes INVISIBLE, anything
      else becomes VISIBLE. */
  function Toggle(v: Visibility): (r: Visibility)
    ensures r != Gone
    ensures (r == Visible) <==> (v != Visible)
  {
    if v == Visible then Invisible else Visible
  }

  /** Two flicker steps restore a label that is shown or hidden. */
  lemma ToggleTwice(v: Visibility)
    requires v != Gone
    ensures Toggle(Toggle(v)) == v
  {
  }

  /** The text updateText shows for an elapsed time, and whether a template was
      rejected on the way. */
  datatype Rendering = Rendering(text: string, rejected: bool)

  /** The rendering updateText produces for an elapsed time. */
  function Render(formatter: (string, string) -> FormatResult, format: Option<string>,
                  millis: int): (r: Rendering)
  {
    var duration := ElapsedText(millis);
    match format
    case None => Rendering(duration, false)
    case Some(f) =>
      match formatter(f, duration)
      case Formatted(output) => Rendering(output, false)
      case IllegalFormat => Rendering(duration, true)
  }

  /** Without a template the duration text is shown as it is; a template that
      the formatter rejects also leaves the duration text, and only then is the
      rendering marked rejected. */
  lemma RenderFallsBack(formatter: (string, string) -> FormatResult, format: Option<string>, millis: int)
    ensures format.None? ==> Render(formatter, format, millis) == Rendering(ElapsedText(millis), false)
    ensures Render(formatter, format, millis).rejected <==>
              format.Some? && formatter(format.value, ElapsedText(millis)) == IllegalFormat
    ensures Render(formatter, format, millis).rejected ==>
              Render(formatter, format, millis).text == ElapsedText(millis)
    ensures format.Some? && !Render(formatter, format, millis).rejected ==>
              Render(formatter, format, millis).text == formatter(format.value, ElapsedText(millis)).output
  {
  }

  /** What init() shows: no template is set and no time has elapsed. */
  lemma InitialRendering(formatter: (string, string) -> FormatResult)
    ensures Render(formatter, None, 0) == Rendering("00:00:00", false)
  {
    ExampleZero();
  }

  class Chronometer {
    /** java.util.Formatter under the default locale, applied to the template and
        the duration text. */
    const formatter: (string, string) -> FormatResult
    /** mRecycle, the buffer handed to TimeUtils on every render. */
    const recycle: StringBuilder

    var base: Long
    var visible: bool
    var paused: bool
    var started: bool
    var running: bool
    var logged: bool
    var format: Option<string>
    /** Whether mFormatBuilder has been allocated. */
    var hasFormatBuilder: bool
    /** Whether a tick listener is registered. */
    var hasListener: bool

    /** The TextView's text and the View's visibility. */
    var text: string
    var visibility: Visibility

    /** TICK messages pending on mHandler and FLICKER messages pending on mHandlerFlicker. */
    var pendingTicks: nat
    var pendingFlickers: nat
    /** Calls of the listener's onChronometerTick, and warnings written by Log.w. */
    var dispatched: nat
    var warnings: nat

    /** Exactly one TICK is pending while running, none otherwise. */
    ghost predicate TicksValid()
      reads this`running, this`pendingTicks
    {
      pendingTicks == if running then 1 else 0
    }

    /** A FLICKER is pending exactly while paused, and an unpaused label is shown. */
    ghost predicate FlickerValid()
      reads this`paused, this`pendingFlickers, this`visibility
    {
      (paused <==> pendingFlickers > 0) && (!paused ==> visibility == Visible)
    }

    /** The template warning is written at most once, and only when mLogged is set. */
    ghost predicate LogValid()
      reads this`warnings, this`logged
    {
      warnings == if logged then 1 else 0
    }

    /** A template is only ever used with its builder allocated. */
    ghost predicate BuilderValid()
      reads this`format, this`hasFormatBuilder
    {
      format.Some? ==> hasFormatBuilder
    }

    ghost predicate Valid()
      reads this`running, this`visible, this`started, this`pendingTicks, this`paused, this`pendingFlickers,
            this`visibility, this`warnings, this`logged, this`format, this`hasFormatBuilder
    {
      running == (visible && started) && TicksValid() && FlickerValid() && LogValid() && BuilderValid()
    }

    /** The text a render at `now` shows. */
    ghost function RenderAt(now: Long): (r: Rendering)
      reads this`format, this`base
    {
      Render(formatter, format, WrapLong(now - base))
    }

    /** Construction and init(): the base is the current time and the label shows
        zero elapsed time; every flag starts false and nothing is pending. */
    constructor (formatter: (string, string) -> FormatResult, now: Long)
      ensures Valid()
      ensures this.formatter == formatter && base == now
      ensures !visible && !paused && !started && !running && !logged
      ensures format == None && !hasFormatBuilder && !hasListener && visibility == Visible
      ensures pendingTicks == 0 && pendingFlickers == 0 && dispatched == 0 && warnings == 0
      ensures text == "00:00:00"
      ensures fresh(recycle)
    {
      this.formatter := formatter;
      recycle := new StringBuilder(8);
      visible, paused, started, running, logged := false, false, false, false, false;
      format, hasFormatBuilder, hasListener := None, false, false;
      text, visibility := "", Visible;
      pendingTicks, pendingFlickers, dispatched, warnings := 0, 0, 0, 0;
      base := now;
      new;
      Init(now);
    }

    /** init(), run by the instance initializer while no template is set and
        nothing has been logged: the base becomes the current time and the label
        is rendered for zero elapsed time. */
    method Init(now: Long)
      requires format == None && !logged
      modifies this`base, this`text, this`logged, this`warnings, recycle
      ensures base == now && text == "00:00:00"
      ensures !logged && warnings == old(warnings)
    {
      base := now;
      assert WrapLong(now - base) == 0;
      InitialRendering(formatter);
      ghost var initial := RenderAt(now);
      UpdateText(now);
      assert RenderAt(now) == initial;
    }

    /** setBase: replaces the base, notifies the listener and re-renders. */
    method SetBase(b: Long, now: Long)
      requires Valid()
      modifies this`base, this`dispatched, this`text, this`logged, this`warnings, recycle
      ensures Valid()
      ensures base == b
      ensures dispatched == old(dispatched) + (if hasListener then 1 else 0)
      ensures text == RenderAt(now).text
      ensures logged == (old(logged) || RenderAt(now).rejected)
    {
      base := b;
      DispatchChronometerTick();
      UpdateText(now);
    }

    method GetBase() returns (b: Long)
      ensures b == base
    {
      b := base;
    }

    /** setFormat: stores the template and allocates its builder on first use. */
    method SetFormat(f: Option<string>)
      requires Valid()
      modifies this`format, this`hasFormatBuilder
      ensures Valid()
      ensures format == f
      ensures hasFormatBuilder == (old(hasFormatBuilder) || f.Some?)
    {
      format := f;
      if f.Some? && !hasFormatBuilder {
        hasFormatBuilder := true;
      }
    }

    method GetFormat() returns (f: Option<string>)
      ensures f == format
    {
      f := format;
    }

    /** setOnChronometerTickListener, with the listener reduced to its presence. */
    method SetOnChronometerTickListener(present: bool)
      requires Valid()
      modifies this`hasListener
      ensures Valid() && hasListener == present
    {
      hasListener := present;
    }

    method GetOnChronometerTickListener() returns (present: bool)
      ensures present == hasListener
    {
      present := hasListener;
    }

    /** start: started and unpaused; the TICK loop runs if the label is visible,
        and the FLICKER loop is cancelled with the label shown. */
    method Start(now: Long)
      requires Valid()
      modifies this`started, this`paused, this`running, this`pendingTicks, this`pendingFlickers,
               this`visibility, this`text, this`logged, this`warnings, this`dispatched, recycle
      ensures Valid()
      ensures started && !paused && running == visible
      ensures pendingTicks == (if visible then 1 else 0)
      ensures pendingFlickers == 0 && visibility == Visible
      ensures visible && !old(started) ==>
                text == RenderAt(now).text && dispatched == old(dispatched) + (if hasListener then 1 else 0)
                && logged == (old(logged) || RenderAt(now).rejected)
      ensures !(visible && !old(started)) ==>
                text == old(text) && dispatched == old(dispatched) && logged == old(logged) && warnings == old(warnings)
    {
      started, paused := true, false;
      UpdateRunning(now);
      UpdateFlickering();
    }

    /** stop: stopped and paused; the TICK loop is cancelled, the label blinks at
        once and one more FLICKER is queued. */
    method Stop(now: Long)
      requires Valid()
      modifies this`started, this`paused, this`running, this`pendingTicks, this`pendingFlickers,
               this`visibility, this`text, this`logged, this`warnings, this`dispatched, recycle
      ensures Valid()
      ensures !started && paused && !running && pendingTicks == 0
      ensures pendingFlickers == old(pendingFlickers) + 1
      ensures visibility == Toggle(old(visibility))
      ensures text == old(text) && dispatched == old(dispatched)
      ensures logged == old(logged) && warnings == old(warnings)
    {
      started, paused := false, true;
      UpdateRunning(now);
      UpdateFlickering();
    }

    /** setStarted: changes the started flag only; the paused flag and the
        FLICKER loop are left alone. */
    method SetStarted(s: bool, now: Long)
      requires Valid()
      modifies this`started, this`running, this`pendingTicks, this`text, this`logged, this`warnings,
               this`dispatched, recycle
      ensures Valid()
      ensures started == s && running == (visible && s)
      ensures paused == old(paused) && pendingFlickers == old(pendingFlickers) && visibility == old(visibility)
      ensures running && !old(running) ==>
                text == RenderAt(now).text && dispatched == old(dispatched) + (if hasListener then 1 else 0)
                && logged == (old(logged) || RenderAt(now).rejected)
      ensures !(running && !old(running)) ==>
                text == old(text) && dispatched == old(dispatched) && logged == old(logged) && warnings == old(warnings)
    {
      started := s;
      UpdateRunning(now);
    }

    /** onDetachedFromWindow: no longer visible, so not running and no TICK pending. */
    method OnDetachedFromWindow(now: Long)
      requires Valid()
      modifies this`visible, this`running, this`pendingTicks, this`text, this`logged, this`warnings,
               this`dispatched, recycle
      ensures Valid()
      ensures !visible && !running && pendingTicks == 0
      ensures text == old(text) && dispatched == old(dispatched) && logged == old(logged) && warnings == old(warnings)
    {
      visible := false;
      UpdateRunning(now);
    }

    /** onWindowVisibilityChanged: visible exactly when the window is VISIBLE. */
    method OnWindowVisibilityChanged(windowVisibility: Visibility, now: Long)
      requires Valid()
      modifies this`visible, this`running, this`pendingTicks, this`text, this`logged, this`warnings,
               this`dispatched, recycle
      ensures Valid()
      ensures visible == (windowVisibility == Visible) && running == (visible && started)
      ensures running && !old(running) ==>
                text == RenderAt(now).text && dispatched == old(dispatched) + (if hasListener then 1 else 0)
                && logged == (old(logged) || RenderAt(now).rejected)
      ensures !(running && !old(running)) ==>
                text == old(text) && dispatched == old(dispatched) && logged == old(logged) && warnings == old(warnings)
    {
      visible := windowVisibility == Visible;
      UpdateRunning(now);
    }

    /** updateText: renders `now - base`; a rejected template leaves the plain
        duration text and sets mLogged, writing the warning only the first time. */
    method UpdateText(now: Long)
      requires BuilderValid()
      modifies this`text, this`logged, this`warnings, recycle
      ensures old(LogValid()) ==> LogValid()
      ensures old(Valid()) ==> Valid()
      ensures var shown := RenderAt(now);
              text == shown.text && logged == (old(logged) || shown.rejected)
              && warnings == old(warnings) + (if shown.rejected && !old(logged) then 1 else 0)
    {
      var millis := WrapLong(now - base);
      ghost var expected := RenderAt(now);
      var t := FormatElapsedTime(recycle, millis);
      if format.Some? {
        match formatter(format.value, t)
        case Formatted(output) =>
          t := output;
        case IllegalFormat =>
          if !logged {
            warnings := warnings + 1;
            logged := true;
          }
      }
      text := t;
      assert text == expected.text;
      assert RenderAt(now) == expected;
    }

    /** updateRunning: recomputes running from visible and started; only a change
        does anything, starting the TICK loop (render, notify, queue one TICK) or
        removing every pending TICK. */
    method UpdateRunning(now: Long)
      requires TicksValid() && LogValid() && BuilderValid()
      modifies this`running, this`pendingTicks, this`text, this`logged, this`warnings,
               this`dispatched, recycle
      ensures TicksValid() && LogValid() && running == (visible && started)
      ensures old(running) == running ==>
                text == old(text) && dispatched == old(dispatched) && pendingTicks == old(pendingTicks)
                && logged == old(logged) && warnings == old(warnings)
      ensures running && !old(running) ==>
                text == RenderAt(now).text && dispatched == old(dispatched) + (if hasListener then 1 else 0)
                && logged == (old(logged) || RenderAt(now).rejected) && pendingTicks == 1
      ensures !running && old(running) ==>
                pendingTicks == 0 && text == old(text) && dispatched == old(dispatched)
                && logged == old(logged) && warnings == old(warnings)
    {
      var r := visible && started;
      if r != running {
        if r {
          RenderAndNotify(now);
          pendingTicks := pendingTicks + 1;
        } else {
          pendingTicks := 0;
        }
        running := r;
      }
    }

    /** updateFlickering: while paused, blink once and queue one more FLICKER;
        otherwise remove every FLICKER and show the label. */
    method UpdateFlickering()
      modifies this`pendingFlickers, this`visibility
      ensures paused ==> pendingFlickers == old(pendingFlickers) + 1 && visibility == Toggle(old(visibility))
      ensures !paused ==> pendingFlickers == 0 && visibility == Visible
    {
      if paused {
        pendingFlickers := pendingFlickers + 1;
        visibility := Toggle(visibility);
      } else {
        pendingFlickers := 0;
        visibility := Visible;
      }
    }

    /** mHandler receiving a TICK: while running, re-render, notify and queue the
        next TICK. */
    method HandleTick(now: Long)
      requires Valid() && pendingTicks > 0
      modifies this`pendingTicks, this`text, this`logged, this`warnings, this`dispatched, recycle
      ensures Valid()
      ensures running && pendingTicks == 1
      ensures text == RenderAt(now).text
      ensures dispatched == old(dispatched) + (if hasListener then 1 else 0)
      ensures logged == (old(logged) || RenderAt(now).rejected)
    {
      pendingTicks := pendingTicks - 1;
      if running {
        RenderAndNotify(now);
        pendingTicks := pendingTicks + 1;
      } else {
        // Only a running chronometer has a TICK pending.
        assert false;
      }
    }

    /** mHandlerFlicker receiving a FLICKER: while paused, blink and queue the
        next FLICKER. */
    method HandleFlicker()
      requires Valid() && pendingFlickers > 0
      modifies this`pendingFlickers, this`visibility
      ensures Valid()
      ensures paused && pendingFlickers == old(pendingFlickers)
      ensures visibility == Toggle(old(visibility))
    {
      pendingFlickers := pendingFlickers - 1;
      if paused {
        visibility := Toggle(visibility);
        pendingFlickers := pendingFlickers + 1;
      } else {
        // Only a paused chronometer has a FLICKER pending.
        assert false;
      }
    }

    /** The step updateRunning and the TICK handler share: updateText, then
        dispatchChronometerTick. */
    method RenderAndNotify(now: Long)
      requires BuilderValid() && LogValid()
      modifies this`text, this`logged, this`warnings, this`dispatched, recycle
      ensures LogValid()
      ensures text == RenderAt(now).text
      ensures dispatched == old(dispatched) + (if hasListener then 1 else 0)
      ensures logged == (old(logged) || RenderAt(now).rejected)
    {
      ghost var expected := RenderAt(now);
      UpdateText(now);
      ghost var shown := text;
      DispatchChronometerTick();
      assert text == shown && RenderAt(now) == expected;
    }

    /** dispatchChronometerTick: calls the listener if there is one. */
    method DispatchChronometerTick()
      modifies this`dispatched
      ensures old(Valid()) ==> Valid()
      ensures dispatched == old(dispatched) + (if hasListener then 1 else 0)
    {
      if hasListener {
        dispatched := dispatched + 1;
      }
    }
  }
}
