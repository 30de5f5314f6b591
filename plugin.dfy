/** The plugin object `QoLBar`: its one-shot initialisation and readiness gate,
    the per-tick `Update` and `Draw` callbacks, the user-icon loading that is
    spread over successive frames, and texture cleanup. Every call into a
    collaborator (IPC, texture dictionaries, icon browser, game hooks,
    configuration, keybinds, condition cache, bar rendering) is recorded as an
    `Event` on the object's `trace`; whether such a call throws is an oracle
    `ok: Event -> bool` passed to the callback that makes it. */
module QoLBarPlugin {
  import opened Primitives

  /** One of the four texture dictionaries. */
  datatype Variant = Variant(highResolution: bool, grayscale: bool)

  datatype Event =
    | IpcInitialize
    | ResolveIconPath
    | LoadUserIcons(highResolution: bool)
    | AddExtraTextures(grayscale: bool)
    | BuildIconCache
    | GameInitialize
    | ConditionManagerInitialize
    | AnnounceInitialized
    | LogLoadFailure
    | DoTimedBackup
    | ReadyCommand
    | KeybindRun
    | SetupHotkeys
    | UpdateConditionCache
    | DrawUpdateWindow
    | DrawBars
    | DisposeTextures(variant: Variant)
    | EmptyTextures(variant: Variant)

  /** The calls of `ReadyPlugin`'s try block that precede `pluginReady = true`. */
  const InitSteps: seq<Event> := [
    IpcInitialize, ResolveIconPath, LoadUserIcons(false), LoadUserIcons(true),
    AddExtraTextures(false), AddExtraTextures(true), BuildIconCache,
    GameInitialize, ConditionManagerInitialize]

  /** The body of `Update` once the plugin is ready. */
  const UpdateSteps: seq<Event> := [DoTimedBackup, ReadyCommand, KeybindRun, SetupHotkeys, UpdateConditionCache]

  /** The body of `Draw` once the plugin is ready. */
  const DrawSteps: seq<Event> := [DrawUpdateWindow, DrawBars]

  /** The four dictionaries, in the order `CleanTextures` visits them. */
  const TextureVariants: seq<Variant> := [
    Variant(false, false), Variant(true, false), Variant(false, true), Variant(true, true)]

  /** The calls of `CleanTextures(disposing)`: one per dictionary, in the
      order of `TextureVariants`, each a dispose or an empty. */
  function CleanSteps(disposing: bool): (steps: seq<Event>)
    ensures |steps| == |TextureVariants|
    ensures forall i :: 0 <= i < |steps| ==>
      steps[i] == if disposing then DisposeTextures(TextureVariants[i]) else EmptyTextures(TextureVariants[i])
  {
    if disposing then
      [DisposeTextures(TextureVariants[0]), DisposeTextures(TextureVariants[1]),
       DisposeTextures(TextureVariants[2]), DisposeTextures(TextureVariants[3])]
    else
      [EmptyTextures(TextureVariants[0]), EmptyTextures(TextureVariants[1]),
       EmptyTextures(TextureVariants[2]), EmptyTextures(TextureVariants[3])]
  }

  /** Every step of `steps` runs without throwing. */
  predicate Completes(steps: seq<Event>, ok: Event -> bool) {
    PrefixLength(steps, ok) == |steps|
  }

  /** The calls a straight run of `steps` makes: all of them, in order, up to
      and including the first one that throws. */
  function Attempted(steps: seq<Event>, ok: Event -> bool): seq<Event> {
    var k := PrefixLength(steps, ok);
    if k < |steps| then steps[..k + 1] else steps
  }

  /** A run that does not complete stops right after the first call that
      throws, every call before it having returned normally. A run completes
      exactly when every step returns normally, and then makes every call. */
  lemma AttemptedStopsAtFirstFailure(steps: seq<Event>, ok: Event -> bool)
    ensures Completes(steps, ok) <==> forall i :: 0 <= i < |steps| ==> ok(steps[i])
    ensures Completes(steps, ok) ==> Attempted(steps, ok) == steps
    ensures !Completes(steps, ok) ==> var a := Attempted(steps, ok);
      && 0 < |a| <= |steps| && a == steps[..|a|]
      && !ok(a[|a| - 1])
      && forall i :: 0 <= i < |a| - 1 ==> ok(a[i])
  {
  }

  // ---------------------------------------------------------------------------
  // Incremental user-icon loading

  /** The three flags `_addUserIcons`, `_iconsLR`, `_iconsHR`. */
  datatype IconLoad = IconLoad(requested: bool, pendingLR: bool, pendingHR: bool)

  datatype IconStepResult = IconStepResult(next: IconLoad, events: seq<Event>)

  function Pending(s: IconLoad, highResolution: bool): bool {
    if highResolution then s.pendingHR else s.pendingLR
  }

  /** Flags only ask for work while loading is requested. */
  predicate IconLoadValid(s: IconLoad) {
    s.pendingLR || s.pendingHR ==> s.requested
  }

  /** One call of `AddUserIcons(ref _addUserIcons)`. `lrFinished` and
      `hrFinished` are what the low- and high-resolution dictionaries'
      `AddUserIcons` return if called this frame: `true` means "finished". */
  function IconStep(s: IconLoad, lrFinished: bool, hrFinished: bool): IconStepResult {
    var startPass := !s.pendingLR && !s.pendingHR;
    var lr := startPass || s.pendingLR;
    var hr := startPass || s.pendingHR;
    var lr' := if lr then !lrFinished else lr;
    var hr' := if hr then !hrFinished else hr;
    var loads := (if lr then [LoadUserIcons(false)] else []) + (if hr then [LoadUserIcons(true)] else []);
    var done := !(lr' || hr');
    IconStepResult(IconLoad(lr' || hr', lr', hr'), [ResolveIconPath] + loads + (if done then [BuildIconCache] else []))
  }

  /** What one step does: the outer flag ends up as "either variant still
      pending"; the icon cache is rebuilt exactly on the step that clears it;
      a fresh pass calls both loaders, otherwise only the pending ones are
      called; a variant stays pending exactly when its loader was called and
      did not report "finished"; the icon path is looked up first. */
  lemma IconStepProperties(s: IconLoad, lrFinished: bool, hrFinished: bool)
    ensures var r := IconStep(s, lrFinished, hrFinished);
      && r.next.requested == (r.next.pendingLR || r.next.pendingHR)
      && ((BuildIconCache in r.events) <==> !r.next.requested)
      && (!s.pendingLR && !s.pendingHR ==> LoadUserIcons(false) in r.events && LoadUserIcons(true) in r.events)
      && ((LoadUserIcons(false) in r.events) <==> (s.pendingLR || !s.pendingHR))
      && ((LoadUserIcons(true) in r.events) <==> (s.pendingHR || !s.pendingLR))
      && (r.next.pendingLR <==> LoadUserIcons(false) in r.events && !lrFinished)
      && (r.next.pendingHR <==> LoadUserIcons(true) in r.events && !hrFinished)
      && (lrFinished && hrFinished ==> !r.next.requested)
      && |r.events| > 0 && r.events[0] == ResolveIconPath
  {
  }

  /** The icon-loading part of successive `Draw` calls: each frame runs a step
      only while loading is requested. */
  function DrawFrames(s: IconLoad, frames: seq<(bool, bool)>): IconStepResult
    decreases |frames|
  {
    if frames == [] then IconStepResult(s, [])
    else
      var first := if s.requested then IconStep(s, frames[0].0, frames[0].1) else IconStepResult(s, []);
      var rest := DrawFrames(first.next, frames[1..]);
      IconStepResult(rest.next, first.events + rest.events)
  }

  /** Frames without a pending request do nothing. */
  lemma {:induction false} IdleFramesDoNothing(s: IconLoad, frames: seq<(bool, bool)>)
    requires !s.requested
    ensures DrawFrames(s, frames) == IconStepResult(s, [])
    decreases |frames|
  {
    if frames != [] {
      IdleFramesDoNothing(s, frames[1..]);
    }
  }

  /** Frames keep the flags consistent. */
  lemma {:induction false} DrawFramesValid(s: IconLoad, frames: seq<(bool, bool)>)
    requires IconLoadValid(s)
    ensures IconLoadValid(DrawFrames(s, frames).next)
    decreases |frames|
  {
    if frames != [] {
      var first := if s.requested then IconStep(s, frames[0].0, frames[0].1) else IconStepResult(s, []);
      DrawFramesValid(first.next, frames[1..]);
    }
  }

  /** Once one variant's loader has reported "finished" while the other is
      still pending, that loader is not called again for any number of frames
      (until a new request starts a new pass). */
  lemma {:induction false} FinishedVariantNotReloaded(s: IconLoad, frames: seq<(bool, bool)>, highResolution: bool)
    requires s.requested && !Pending(s, highResolution) && Pending(s, !highResolution)
    ensures LoadUserIcons(highResolution) !in DrawFrames(s, frames).events
    decreases |frames|
  {
    if frames != [] {
      var first := IconStep(s, frames[0].0, frames[0].1);
      assert LoadUserIcons(highResolution) !in first.events;
      if first.next.requested {
        FinishedVariantNotReloaded(first.next, frames[1..], highResolution);
      } else {
        IdleFramesDoNothing(first.next, frames[1..]);
      }
    }
  }

  /** The icon cache is rebuilt at most once per request: after the step that
      rebuilds it, further frames make no calls at all. */
  lemma {:induction false} CacheBuiltOncePerPass(s: IconLoad, frames: seq<(bool, bool)>)
    requires s.requested && |frames| > 0
    requires BuildIconCache in IconStep(s, frames[0].0, frames[0].1).events
    ensures DrawFrames(s, frames).events == IconStep(s, frames[0].0, frames[0].1).events
  {
    var first := IconStep(s, frames[0].0, frames[0].1);
    IdleFramesDoNothing(first.next, frames[1..]);
  }

  /** A request made after a pass has ended, with the flags consistent,
      starts a fresh pass: the next step calls both loaders. */
  lemma NewRequestLoadsBoth(s: IconLoad, lrFinished: bool, hrFinished: bool)
    requires IconLoadValid(s) && !s.requested
    ensures var r := IconStep(IconLoad(true, s.pendingLR, s.pendingHR), lrFinished, hrFinished);
      LoadUserIcons(false) in r.events && LoadUserIcons(true) in r.events
  {
    IconStepProperties(IconLoad(true, s.pendingLR, s.pendingHR), lrFinished, hrFinished);
  }

  // ---------------------------------------------------------------------------
  // Font size

  const MaxFontSize: real := 64.0

  /** `Math.Min(Math.Max(Config.FontSize, 1), MaxFontSize)` in `SetupFont`. */
  function ClampFontSize(size: real): (px: real)
    ensures 1.0 <= px <= MaxFontSize
    ensures 1.0 <= size <= MaxFontSize ==> px == size
    ensures size < 1.0 ==> px == 1.0
    ensures size > MaxFontSize ==> px == MaxFontSize
  {
    var atLeastOne := if size > 1.0 then size else 1.0;
    if atLeastOne < MaxFontSize then atLeastOne else MaxFontSize
  }

  // ---------------------------------------------------------------------------
  // The plugin object

  class QoLBar {
    var pluginReady: bool
    var addUserIcons: bool
    var iconsLR: bool
    var iconsHR: bool
    /** The collaborator calls made so far, oldest first. */
    var trace: seq<Event>

    function IconState(): IconLoad
      reads this
    {
      IconLoad(addUserIcons, iconsLR, iconsHR)
    }

    ghost predicate Valid()
      reads this
    {
      IconLoadValid(IconState())
    }

    /** The end of the constructor: fields at their initial values, then
        `ReadyPlugin()`. */
    constructor (ok: Event -> bool)
      ensures Valid()
      ensures pluginReady == Completes(InitSteps, ok)
      ensures !addUserIcons && !iconsLR && !iconsHR
      ensures Completes(InitSteps, ok) ==>
        trace == InitSteps + [AnnounceInitialized] + (if ok(AnnounceInitialized) then [] else [LogLoadFailure])
      ensures !Completes(InitSteps, ok) ==> trace == Attempted(InitSteps, ok) + [LogLoadFailure]
    {
      pluginReady, addUserIcons, iconsLR, iconsHR := false, false, false, false;
      trace := [];
      new;
      ReadyPlugin(ok);
    }

    /** Runs `steps` in order, as straight-line calls do: a call that throws
        ends the run, and `thrown` reports it. */
    method RunSteps(steps: seq<Event>, ok: Event -> bool) returns (thrown: bool)
      modifies this`trace
      ensures trace == old(trace) + Attempted(steps, ok)
      ensures thrown == !Completes(steps, ok)
      ensures !thrown ==> trace == old(trace) + steps
    {
      var i := 0;
      thrown := false;
      while i < |steps| && !thrown
        invariant 0 <= i <= |steps|
        invariant trace == old(trace) + steps[..i]
        invariant forall j :: 0 <= j < i - 1 ==> ok(steps[j])
        invariant thrown <==> 0 < i && !ok(steps[i - 1])
      {
        trace := trace + [steps[i]];
        thrown := !ok(steps[i]);
        i := i + 1;
      }
      assert steps[..|steps|] == steps;
    }

    /** `ReadyPlugin()`: the try block sets `pluginReady` after its first nine
        calls succeed and then announces initialisation over IPC; whatever
        throws is caught and logged. */
    method ReadyPlugin(ok: Event -> bool)
      requires Valid()
      modifies this`pluginReady, this`trace
      ensures Valid()
      ensures pluginReady == (old(pluginReady) || Completes(InitSteps, ok))
      ensures Completes(InitSteps, ok) ==>
        trace == old(trace) + InitSteps + [AnnounceInitialized] + (if ok(AnnounceInitialized) then [] else [LogLoadFailure])
      ensures !Completes(InitSteps, ok) ==> trace == old(trace) + Attempted(InitSteps, ok) + [LogLoadFailure]
    {
      var thrown := RunSteps(InitSteps, ok);
      if !thrown {
        pluginReady := true;
        trace := trace + [AnnounceInitialized];
        thrown := !ok(AnnounceInitialized);
      }
      if thrown {
        trace := trace + [LogLoadFailure];
      }
    }

    /** `Update(framework)`: nothing until ready; then the five calls in order.
        The method has no try block, so a call that throws escapes to the host
        and the calls after it do not run. */
    method Update(ok: Event -> bool) returns (escaped: bool)
      modifies this`trace
      ensures !pluginReady ==> trace == old(trace) && !escaped
      ensures pluginReady ==> trace == old(trace) + Attempted(UpdateSteps, ok)
      ensures pluginReady ==> escaped == !Completes(UpdateSteps, ok)
    {
      if !pluginReady {
        return false;
      }
      escaped := RunSteps(UpdateSteps, ok);
    }

    /** `AddUserIcons(ref _addUserIcons)`. */
    method AddUserIconsStep(lrFinished: bool, hrFinished: bool)
      requires Valid()
      modifies this`addUserIcons, this`iconsLR, this`iconsHR, this`trace
      ensures Valid()
      ensures IconState() == IconStep(old(IconState()), lrFinished, hrFinished).next
      ensures trace == old(trace) + IconStep(old(IconState()), lrFinished, hrFinished).events
    {
      ghost var expected := IconStep(IconState(), lrFinished, hrFinished);
      ghost var trace0 := trace;
      if !iconsLR && !iconsHR {
        iconsLR := true;
        iconsHR := true;
      }
      trace := trace + [ResolveIconPath];
      if iconsLR {
        trace := trace + [LoadUserIcons(false)];
        iconsLR := !lrFinished;
      }
      if iconsHR {
        trace := trace + [LoadUserIcons(true)];
        iconsHR := !hrFinished;
      }
      addUserIcons := iconsLR || iconsHR;
      if !addUserIcons {
        trace := trace + [BuildIconCache];
      }
      assert IconState() == expected.next;
      assert trace == trace0 + expected.events;
    }

    /** `Draw()`: the pending icon-loading step runs whether or not the plugin
        is ready; the update window and the bars are drawn only when ready. */
    method Draw(lrFinished: bool, hrFinished: bool, ok: Event -> bool) returns (escaped: bool)
      requires Valid()
      modifies this`addUserIcons, this`iconsLR, this`iconsHR, this`trace
      ensures Valid()
      ensures IconState() == DrawFrames(old(IconState()), [(lrFinished, hrFinished)]).next
      ensures trace == old(trace) + DrawFrames(old(IconState()), [(lrFinished, hrFinished)]).events
        + (if pluginReady then Attempted(DrawSteps, ok) else [])
      ensures escaped == (pluginReady && !Completes(DrawSteps, ok))
    {
      if addUserIcons {
        AddUserIconsStep(lrFinished, hrFinished);
      }
      if !pluginReady {
        return false;
      }
      escaped := RunSteps(DrawSteps, ok);
    }

    /** `AddUserIcons()`: asks the next frames to load user icons. */
    method RequestUserIcons()
      requires Valid()
      modifies this`addUserIcons
      ensures Valid()
      ensures addUserIcons
    {
      addUserIcons := true;
    }

    /** `CleanTextures(disposing)`: every dictionary, in turn, is disposed, or
        only emptied of its unreferenced textures. There is no try block, so a
        dictionary that throws ends the clean-up and the exception escapes. */
    method CleanTextures(disposing: bool, ok: Event -> bool) returns (escaped: bool)
      modifies this`trace
      ensures trace == old(trace) + Attempted(CleanSteps(disposing), ok)
      ensures escaped == !Completes(CleanSteps(disposing), ok)
    {
      escaped := RunSteps(CleanSteps(disposing), ok);
    }
  }
}
