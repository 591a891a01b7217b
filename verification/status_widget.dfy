/**
 * The status cell of a light row (QTableWidgetIcon.py): a severity and the
 * icon its label shows, both set from keyword flags through a shared
 * IconRenderer. The label is modelled by the pixmap it holds; its layout and
 * size are left out.
 */
module StatusWidget {
  import opened Wrappers
  import opened LightStatus
  import opened IconRendering
  import Host

  /** The severity a widget starts with when none is given. */
  const DefaultSeverity: int := 99

  /** The warning `setStatus` emits when it is called without keyword arguments. */
  const NoStatusMessage: string := "No status was specified"

  /** The glyph `setStatus` shows for a status; `Undefined` asks for none. */
  function GlyphOf(s: Status): Option<IconKind> {
    match s
    case Found => Some(Checkmark)
    case Outdated => Some(Exclamation)
    case Add => Some(Plus)
    case Missing => Some(Cross)
    case Undefined => None
  }

  /** The keyword arguments `setStatus` passes to `getIcon` for a status. */
  function IconArgs(s: Status): map<string, bool> {
    match GlyphOf(s)
    case Some(k) => map[Key(k) := true]
    case None => map[]
  }

  /** The flag of `setStatus` that raises a status, in the order the flags are checked. */
  function RaisedBy(kwargs: map<string, bool>, flag: string, s: Status): seq<Status> {
    if Flag(kwargs, flag) then [s] else []
  }

  /** The statuses one `setStatus(**kwargs)` call sets, in the order it sets them. */
  function Raised(kwargs: map<string, bool>): (r: seq<Status>)
    ensures |r| <= 4
  {
    RaisedBy(kwargs, "found", Found) + RaisedBy(kwargs, "outdated", Outdated)
    + RaisedBy(kwargs, "add", Add) + RaisedBy(kwargs, "missing", Missing)
    + (if |kwargs| == 0 then [Undefined] else [])
  }

  /**
   * The status a widget ends up with, by precedence: no arguments at all is
   * Undefined, then Missing, Add, Outdated and Found; no flag set changes
   * nothing.
   */
  function Outcome(kwargs: map<string, bool>): (r: Option<Status>)
    ensures r == Some(Undefined) <==> |kwargs| == 0
  {
    if |kwargs| == 0 then Some(Undefined)
    else if Flag(kwargs, "missing") then Some(Missing)
    else if Flag(kwargs, "add") then Some(Add)
    else if Flag(kwargs, "outdated") then Some(Outdated)
    else if Flag(kwargs, "found") then Some(Found)
    else None
  }

  /** The icon files `setStatus` asks the renderer for while setting `statuses` in turn. */
  function FilesOf(statuses: seq<Status>): seq<string>
    decreases |statuses|
  {
    if statuses == [] then []
    else FilesOf(statuses[..|statuses| - 1]) + Requested(IconArgs(statuses[|statuses| - 1]))
  }

  /** The icon `getIcon(**IconArgs(s))` returns on a cache and disk. */
  function Shown(cache: map<string, Pixmap>, files: map<string, FileData>, resources: map<string, Image>, s: Status): (r: Pixmap)
    ensures s == Undefined ==> r == Resource(resources, FallbackResource)
  {
    RequestedNone();
    match FirstLoaded(cache, files, Requested(IconArgs(s)))
    case Some(q) => q
    case None => Resource(resources, FallbackResource)
  }

  function Last<T>(xs: seq<T>): T
    requires xs != []
  {
    xs[|xs| - 1]
  }

  // ---------------------------------------------------------------------
  // Properties of the flags
  // ---------------------------------------------------------------------

  /** The status set last is the one precedence picks; no status set means no change. */
  lemma OutcomeIsLastRaised(kwargs: map<string, bool>)
    ensures Outcome(kwargs).None? <==> Raised(kwargs) == []
    ensures Outcome(kwargs).Some? ==> Raised(kwargs) != [] && Outcome(kwargs).value == Last(Raised(kwargs))
  {
    var r1, r2, r3, r4 := RaisedBy(kwargs, "found", Found), RaisedBy(kwargs, "outdated", Outdated),
                          RaisedBy(kwargs, "add", Add), RaisedBy(kwargs, "missing", Missing);
    var r5: seq<Status> := if |kwargs| == 0 then [Undefined] else [];
    assert Raised(kwargs) == r1 + r2 + r3 + r4 + r5;
    if |kwargs| == 0 {
      assert Last(Raised(kwargs)) == Undefined;
    } else if Flag(kwargs, "missing") {
      assert r5 == [];
      assert Last(Raised(kwargs)) == Missing;
    } else if Flag(kwargs, "add") {
      assert r4 + r5 == [];
      assert Raised(kwargs) == r1 + r2 + r3;
    } else if Flag(kwargs, "outdated") {
      assert r3 + r4 + r5 == [];
      assert Raised(kwargs) == r1 + r2;
    } else if Flag(kwargs, "found") {
      assert Raised(kwargs) == r1;
    } else {
      assert Raised(kwargs) == [];
    }
  }

  /** The statuses set, block by block; without arguments no flag is set. */
  lemma RaisedFlags(kwargs: map<string, bool>)
    ensures Raised(kwargs)
            == [] + RaisedBy(kwargs, "found", Found) + RaisedBy(kwargs, "outdated", Outdated)
               + RaisedBy(kwargs, "add", Add) + RaisedBy(kwargs, "missing", Missing)
               + (if |kwargs| == 0 then [Undefined] else [])
    ensures |kwargs| == 0 ==> Raised(kwargs) == [Undefined] && forall key :: !Flag(kwargs, key)
  {
    if |kwargs| == 0 {
      assert forall key :: !Flag(kwargs, key);
    }
    assert [] + RaisedBy(kwargs, "found", Found) == RaisedBy(kwargs, "found", Found);
  }

  /** Each flag on its own sets its own status: found 0, outdated 1, add 2, missing 3. */
  lemma SingleFlag(flag: string, s: Status)
    requires (flag, s) in {("found", Found), ("outdated", Outdated), ("add", Add), ("missing", Missing)}
    ensures Outcome(map[flag := true]) == Some(s)
    ensures Ordinal(s) == if s == Found then 0 else if s == Outdated then 1 else if s == Add then 2 else 3
  {
    var m := map[flag := true];
    assert |m| == 1;
    assert flag in m;
  }

  /** With both `found` and `missing` set, `missing`, checked later, wins: severity 3. */
  lemma LastFlagWins(kwargs: map<string, bool>)
    requires Flag(kwargs, "found") && Flag(kwargs, "missing")
    ensures Outcome(kwargs) == Some(Missing) && Ordinal(Missing) == 3
  {
    assert "found" in kwargs;
    assert |kwargs| != 0;
  }

  /** Keyword arguments that are all false set nothing. */
  lemma AllFalseKeepsStatus(kwargs: map<string, bool>)
    requires |kwargs| > 0 && forall key :: key in kwargs ==> !kwargs[key]
    ensures Outcome(kwargs) == None && Raised(kwargs) == []
  {
    OutcomeIsLastRaised(kwargs);
  }

  /** No keyword arguments gives Undefined, severity 4. */
  lemma NoArgumentsUndefined()
    ensures Outcome(map[]) == Some(Undefined) && Ordinal(Undefined) == 4
  {
    var none: map<string, bool> := map[];
    assert |none| == 0;
  }

  // ---------------------------------------------------------------------
  // Properties of the icons shown
  // ---------------------------------------------------------------------

  /** `getIcon(glyph=True)` asks for exactly that glyph's file. */
  lemma RequestedSingle(k: IconKind)
    ensures Requested(map[Key(k) := true]) == [FileName(k)]
  {
    var m := map[Key(k) := true];
    forall j ensures Flag(m, Key(j)) <==> j == k {
      assert Key(j) == Key(k) <==> j == k;
    }
    assert Piece(m, Checkmark) + Piece(m, Cross) + Piece(m, Exclamation) + Piece(m, Plus) == [FileName(k)];
  }

  /** A flagless `getIcon()` asks for no file. */
  lemma RequestedNone()
    ensures Requested(map[]) == []
  {
    var none: map<string, bool> := map[];
    assert forall k :: !Flag(none, Key(k));
  }

  /** The files a status asks for: its glyph's file, or none for Undefined. */
  lemma StatusFiles(s: Status)
    ensures Requested(IconArgs(s)) == if GlyphOf(s).Some? then [FileName(GlyphOf(s).value)] else []
  {
    if GlyphOf(s).Some? {
      RequestedSingle(GlyphOf(s).value);
    } else {
      RequestedNone();
    }
  }

  /** The icon shown for a status: its glyph if that loads, otherwise the question mark. */
  lemma ShownSpec(cache: map<string, Pixmap>, files: map<string, FileData>, resources: map<string, Image>, s: Status)
    ensures GlyphOf(s).Some? && Loadable(cache, files, FileName(GlyphOf(s).value)) ==>
              Shown(cache, files, resources, s) == Loaded(cache, files, FileName(GlyphOf(s).value))
    ensures GlyphOf(s).None? || !Loadable(cache, files, FileName(GlyphOf(s).value)) ==>
              Shown(cache, files, resources, s) == Resource(resources, FallbackResource)
  {
    StatusFiles(s);
    if GlyphOf(s).Some? {
      var f := FileName(GlyphOf(s).value);
      assert [f][1..] == [];
      assert FirstLoaded(cache, files, [f]) == if Loadable(cache, files, f) then Some(Loaded(cache, files, f)) else None;
    } else {
      assert FirstLoaded(cache, files, []) == None;
    }
  }

  /** Setting `statuses` then `s` asks for the files of `statuses`, then those of `s`. */
  lemma FilesOfSnoc(statuses: seq<Status>, s: Status)
    ensures FilesOf(statuses + [s]) == FilesOf(statuses) + Requested(IconArgs(s))
  {
    assert (statuses + [s])[..|statuses|] == statuses;
  }

  /**
   * One `getIcon` for status `s` after the loads in `loads`: the cache and
   * the warnings continue those of `loads` with the files of `s`.
   */
  lemma StatusStep(c0: map<string, Pixmap>, files: map<string, FileData>, loads: seq<string>, s: Status)
    ensures CacheAfter(c0, files, loads + Requested(IconArgs(s)))
            == CacheAfter(CacheAfter(c0, files, loads), files, Tried(CacheAfter(c0, files, loads), files, Requested(IconArgs(s))))
    ensures NotFound(c0, files, loads + Requested(IconArgs(s)))
            == NotFound(c0, files, loads) + NotFound(CacheAfter(c0, files, loads), files, Tried(CacheAfter(c0, files, loads), files, Requested(IconArgs(s))))
  {
    var c := CacheAfter(c0, files, loads);
    StatusFiles(s);
    if GlyphOf(s).Some? {
      var f := FileName(GlyphOf(s).value);
      TriedSingle(c, files, f);
      CacheAfterSnoc(c0, files, loads, f);
      NotFoundSnoc(c0, files, loads, f);
      assert [f][1..] == [];
    } else {
      assert loads + [] == loads;
      assert Tried(c, files, []) == [];
    }
  }

  /** The first loadable name is the same before and after any loads. */
  lemma {:induction false} FirstLoadedStable(cache: map<string, Pixmap>, files: map<string, FileData>,
                                             loads: seq<string>, names: seq<string>)
    ensures FirstLoaded(CacheAfter(cache, files, loads), files, names) == FirstLoaded(cache, files, names)
  {
    if names != [] {
      CacheAfterAgrees(cache, files, loads, names[0]);
      FirstLoadedStable(cache, files, loads, names[1..]);
    }
  }

  /** The icon a status shows does not depend on what was loaded before. */
  lemma ShownStable(cache: map<string, Pixmap>, files: map<string, FileData>, resources: map<string, Image>,
                    loads: seq<string>, s: Status)
    ensures Shown(CacheAfter(cache, files, loads), files, resources, s) == Shown(cache, files, resources, s)
  {
    FirstLoadedStable(cache, files, loads, Requested(IconArgs(s)));
  }

  /** A single name is tried in full. */
  lemma TriedSingle(cache: map<string, Pixmap>, files: map<string, FileData>, f: string)
    ensures Tried(cache, files, [f]) == [f]
  {
    assert [f][1..] == [];
  }

  lemma Associative<T>(a: seq<T>, b: seq<T>, c: seq<T>)
    ensures a + b + c == a + (b + c)
  {
  }

  // ---------------------------------------------------------------------
  // The widget
  // ---------------------------------------------------------------------

  class StatusIcon {
    /** The row's severity, one of the LightStatus constants once a status is set. */
    var severity: int
    /** The pixmap the label shows. */
    var pixmap: Pixmap
    const renderer: IconRenderer

    ghost predicate Valid()
      reads this, renderer
    {
      renderer.Valid()
    }

    /**
     * `__init__`: draw whatever icons are still missing unless the renderer
     * already checked, then show the resource `path`, through the renderer
     * when `rendered` is set and scaled directly otherwise.
     */
    constructor (renderer: IconRenderer, severity: int := DefaultSeverity, path: string := "", rendered: bool := false)
      requires renderer.Valid()
      modifies renderer, renderer.log
      ensures Valid() && this.renderer == renderer && this.severity == severity
      ensures renderer.requiredChecked
      ensures renderer.requiredRuns == old(renderer.requiredRuns) + (if old(renderer.requiredChecked) then 0 else 1)
      ensures old(renderer.requiredRuns) <= 1 ==> renderer.requiredRuns == 1
      ensures old(renderer.requiredChecked) ==>
                renderer.dirExists == old(renderer.dirExists) && renderer.files == old(renderer.files)
                && renderer.rendered == old(renderer.rendered)
      ensures !old(renderer.requiredChecked) ==>
                renderer.dirExists
                && renderer.files == WithGlyphs(old(renderer.files), ToRender(old(renderer.dirExists), old(renderer.files)))
                && renderer.rendered == old(renderer.rendered) + ToRender(old(renderer.dirExists), old(renderer.files))
      ensures renderer.loadedIcons == old(renderer.loadedIcons) && renderer.log.warnings == old(renderer.log.warnings)
      ensures pixmap == if rendered && |path| == 0 then Resource(renderer.resources, FallbackResource)
                       else ScaledToWidth(Resource(renderer.resources, path), Scale)
    {
      this.severity := severity;
      this.renderer := renderer;
      pixmap := Null;
      new;
      if !renderer.requiredChecked {
        renderer.RenderRequired();
      }
      if rendered {
        RequestedNone();
        pixmap := renderer.GetIcon(path);
      } else {
        pixmap := ScaledToWidth(Resource(renderer.resources, path), renderer.ScaleWidth());
      }
    }

    /** The body of one flag block: take severity `sev` and the icon `getIcon` returns for the glyph of `s`. */
    method Show(sev: int, s: Status, ghost c0: map<string, Pixmap>, ghost w0: seq<string>,
                ghost loads: seq<string>)
      requires Valid() && sev == Ordinal(s) && GlyphOf(s).Some?
      requires renderer.loadedIcons == CacheAfter(c0, renderer.files, loads)
      requires renderer.log.warnings == w0 + NotFound(c0, renderer.files, loads)
      modifies this, renderer, renderer.log
      ensures Valid()
      ensures renderer.dirExists == old(renderer.dirExists) && renderer.files == old(renderer.files)
      ensures renderer.requiredChecked == old(renderer.requiredChecked) && renderer.requiredRuns == old(renderer.requiredRuns)
      ensures renderer.rendered == old(renderer.rendered)
      ensures severity == Ordinal(s) && pixmap == Shown(c0, renderer.files, renderer.resources, s)
      ensures renderer.loadedIcons == CacheAfter(c0, renderer.files, loads + Requested(IconArgs(s)))
      ensures renderer.log.warnings == w0 + NotFound(c0, renderer.files, loads + Requested(IconArgs(s)))
    {
      StatusStep(c0, renderer.files, loads, s);
      ShownStable(c0, renderer.files, renderer.resources, loads, s);
      ghost var c := renderer.loadedIcons;
      severity := sev;
      pixmap := renderer.GetIcon("", IconArgs(s));
      Associative(w0, NotFound(c0, renderer.files, loads), NotFound(c, renderer.files, Tried(c, renderer.files, Requested(IconArgs(s)))));
    }

    /**
     * One flag block of `setStatus`: when `flag` is set, take severity `sev`
     * and the icon of status `s`. The ghost `done` lists the statuses set so
     * far in this call.
     */
    method ShowIf(flag: bool, sev: int, s: Status,
                  ghost c0: map<string, Pixmap>, ghost w0: seq<string>,
                  ghost sev0: int, ghost pixmap0: Pixmap, ghost done: seq<Status>)
      returns (ghost done': seq<Status>)
      requires Valid() && sev == Ordinal(s) && GlyphOf(s).Some?
      requires renderer.loadedIcons == CacheAfter(c0, renderer.files, FilesOf(done))
      requires renderer.log.warnings == w0 + NotFound(c0, renderer.files, FilesOf(done))
      requires done == [] ==> severity == sev0 && pixmap == pixmap0
      requires done != [] ==> severity == Ordinal(Last(done)) && pixmap == Shown(c0, renderer.files, renderer.resources, Last(done))
      modifies this, renderer, renderer.log
      ensures Valid()
      ensures renderer.dirExists == old(renderer.dirExists) && renderer.files == old(renderer.files)
      ensures renderer.requiredChecked == old(renderer.requiredChecked) && renderer.requiredRuns == old(renderer.requiredRuns)
      ensures renderer.rendered == old(renderer.rendered)
      ensures done' == done + (if flag then [s] else [])
      ensures renderer.loadedIcons == CacheAfter(c0, renderer.files, FilesOf(done'))
      ensures renderer.log.warnings == w0 + NotFound(c0, renderer.files, FilesOf(done'))
      ensures done' == [] ==> severity == sev0 && pixmap == pixmap0
      ensures done' != [] ==> severity == Ordinal(Last(done')) && pixmap == Shown(c0, renderer.files, renderer.resources, Last(done'))
    {
      done' := done;
      if flag {
        FilesOfSnoc(done, s);
        Show(sev, s, c0, w0, FilesOf(done));
        done' := done + [s];
      } else {
        assert done + [] == done;
      }
    }

    /**
     * `setStatus`: the flags are checked in the order found, outdated, add,
     * missing, each set one overriding the last; no keyword arguments at all
     * warns and shows the question mark with severity 4.
     */
    method SetStatus(kwargs: map<string, bool>)
      requires Valid()
      modifies this, renderer, renderer.log
      ensures Valid()
      ensures renderer.dirExists == old(renderer.dirExists) && renderer.files == old(renderer.files)
      ensures renderer.requiredChecked == old(renderer.requiredChecked) && renderer.requiredRuns == old(renderer.requiredRuns)
      ensures renderer.rendered == old(renderer.rendered)
      ensures Outcome(kwargs).None? ==> severity == old(severity) && pixmap == old(pixmap)
      ensures Outcome(kwargs).Some? ==>
                severity == Ordinal(Outcome(kwargs).value)
                && pixmap == Shown(old(renderer.loadedIcons), renderer.files, renderer.resources, Outcome(kwargs).value)
      ensures renderer.loadedIcons == CacheAfter(old(renderer.loadedIcons), renderer.files, FilesOf(Raised(kwargs)))
      ensures renderer.log.warnings
              == old(renderer.log.warnings) + NotFound(old(renderer.loadedIcons), renderer.files, FilesOf(Raised(kwargs)))
                 + (if |kwargs| == 0 then [NoStatusMessage] else [])
    {
      ghost var c0, w0 := renderer.loadedIcons, renderer.log.warnings;
      ghost var done := ShowFlags(kwargs, c0, w0);
      OutcomeIsLastRaised(kwargs);
      RaisedFlags(kwargs);
      if |kwargs| == 0 {
        ShowNone(c0, w0, done);
      } else {
        assert Raised(kwargs) == done;
        assert w0 + NotFound(c0, renderer.files, FilesOf(done)) + [] == w0 + NotFound(c0, renderer.files, FilesOf(done));
      }
    }

    /** The four flag blocks of `setStatus`, in the order found, outdated, add, missing. */
    method ShowFlags(kwargs: map<string, bool>, ghost c0: map<string, Pixmap>, ghost w0: seq<string>)
      returns (ghost done: seq<Status>)
      requires Valid() && renderer.loadedIcons == c0 && renderer.log.warnings == w0
      modifies this, renderer, renderer.log
      ensures Valid()
      ensures renderer.dirExists == old(renderer.dirExists) && renderer.files == old(renderer.files)
      ensures renderer.requiredChecked == old(renderer.requiredChecked) && renderer.requiredRuns == old(renderer.requiredRuns)
      ensures renderer.rendered == old(renderer.rendered)
      ensures done == [] + RaisedBy(kwargs, "found", Found) + RaisedBy(kwargs, "outdated", Outdated)
                      + RaisedBy(kwargs, "add", Add) + RaisedBy(kwargs, "missing", Missing)
      ensures renderer.loadedIcons == CacheAfter(c0, renderer.files, FilesOf(done))
      ensures renderer.log.warnings == w0 + NotFound(c0, renderer.files, FilesOf(done))
      ensures done == [] ==> severity == old(severity) && pixmap == old(pixmap)
      ensures done != [] ==> severity == Ordinal(Last(done)) && pixmap == Shown(c0, renderer.files, renderer.resources, Last(done))
    {
      ghost var sev0, pixmap0 := severity, pixmap;
      assert FilesOf([]) == [] && NotFound(c0, renderer.files, []) == [] && w0 + [] == w0;
      done := [];
      done := ShowIf(Flag(kwargs, "found"), 0, Found, c0, w0, sev0, pixmap0, done);
      done := ShowIf(Flag(kwargs, "outdated"), 1, Outdated, c0, w0, sev0, pixmap0, done);
      done := ShowIf(Flag(kwargs, "add"), 2, Add, c0, w0, sev0, pixmap0, done);
      done := ShowIf(Flag(kwargs, "missing"), 3, Missing, c0, w0, sev0, pixmap0, done);
    }

    /** The last block of `setStatus`, reached with no keyword arguments and so no flag set. */
    method ShowNone(ghost c0: map<string, Pixmap>, ghost w0: seq<string>, ghost done: seq<Status>)
      requires Valid() && done == []
      requires renderer.loadedIcons == c0 && renderer.log.warnings == w0
      modifies this, renderer, renderer.log
      ensures Valid()
      ensures renderer.dirExists == old(renderer.dirExists) && renderer.files == old(renderer.files)
      ensures renderer.requiredChecked == old(renderer.requiredChecked) && renderer.requiredRuns == old(renderer.requiredRuns)
      ensures renderer.rendered == old(renderer.rendered)
      ensures severity == Ordinal(Undefined) && pixmap == Shown(c0, renderer.files, renderer.resources, Undefined)
      ensures renderer.loadedIcons == CacheAfter(c0, renderer.files, FilesOf([Undefined]))
      ensures renderer.log.warnings == w0 + NotFound(c0, renderer.files, FilesOf([Undefined])) + [NoStatusMessage]
    {
      RequestedNone();
      assert [Undefined][..0] == [];
      renderer.log.Warning(NoStatusMessage);
      severity := 4;
      pixmap := renderer.GetIcon();
    }
  }
}
