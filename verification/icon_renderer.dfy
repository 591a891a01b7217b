/**
 * The status-icon cache and renderer (IconRenderer.py).
 *
 * The icon directory is modelled as an abstract disk: whether the directory
 * exists, and the files in it with their contents. Decoding a file with
 * QPixmap succeeds exactly when the file exists and holds a readable image;
 * scaling only records the width. Rendering one of the four glyphs leaves its
 * SVG file on disk. Qt's built-in resources (":/name") are a fixed map.
 */
module IconRendering {
  import opened Wrappers
  import Host

  /** The four glyphs the renderer draws, in the order it draws and looks them up. */
  datatype IconKind = Checkmark | Cross | Exclamation | Plus

  const AllKinds: seq<IconKind> := [Checkmark, Cross, Exclamation, Plus]

  /** The keyword argument that asks for a glyph. */
  function Key(k: IconKind): string {
    match k
    case Checkmark => "checkmark"
    case Cross => "cross"
    case Exclamation => "exclamation"
    case Plus => "plus"
  }

  /** The file the glyph is rendered to and loaded from. */
  function FileName(k: IconKind): string
  {
    match k
    case Checkmark => "checkmark.svg"
    case Cross => "cross.svg"
    case Exclamation => "exclamation.svg"
    case Plus => "plus.svg"
  }

  /** A decoded picture: one of the rendered glyphs, or any other image. */
  datatype Image = Glyph(kind: IconKind) | Picture(id: string)

  datatype FileData = Decodable(image: Image) | Undecodable

  datatype Width = Native | Scaled(w: nat)

  /** A QPixmap: null, or an image at its native width or scaled to a width. */
  datatype Pixmap = Null | Pixmap(image: Image, width: Width)

  /** `__scale`: loaded icons are scaled to this width. */
  const Scale: nat := 20

  /** The Qt resource shown when no requested icon could be loaded. */
  const FallbackResource: string := "kAlertQuestionIcon.png"

  /** The warning `__loadIcon` emits for a file it cannot load. */
  function NotFoundMessage(f: string): string {
    f + " not found"
  }

  /** `QPixmap.scaledToWidth`: a null pixmap stays null. */
  function ScaledToWidth(p: Pixmap, w: nat): (r: Pixmap)
    ensures r.Null? <==> p.Null?
    ensures r.Pixmap? ==> r.image == p.image && r.width == Scaled(w)
  {
    match p
    case Null => Null
    case Pixmap(image, _) => Pixmap(image, Scaled(w))
  }

  /** `QPixmap(":/" + name)`: the built-in resource, or null when there is none. */
  function Resource(resources: map<string, Image>, name: string): (r: Pixmap)
    ensures r.Pixmap? <==> name in resources
  {
    if name in resources then Pixmap(resources[name], Native) else Null
  }

  // ---------------------------------------------------------------------
  // Keyword flags
  // ---------------------------------------------------------------------

  /** `key in kwargs and kwargs[key]`, with each value's truthiness as a bool. */
  predicate Flag(kwargs: map<string, bool>, key: string) {
    key in kwargs && kwargs[key]
  }

  /** The file one flag asks for, if it is set. */
  function Piece(kwargs: map<string, bool>, k: IconKind): seq<string> {
    if Flag(kwargs, Key(k)) then [FileName(k)] else []
  }

  /** The files `getIcon`/`getIcons` try, in their fixed order. */
  function Requested(kwargs: map<string, bool>): (r: seq<string>)
    ensures |r| <= 4
  {
    Piece(kwargs, Checkmark) + Piece(kwargs, Cross) + Piece(kwargs, Exclamation) + Piece(kwargs, Plus)
  }

  /** The groupings of four requested pieces `getIcon` steps through. */
  lemma Regroup(p1: seq<string>, p2: seq<string>, p3: seq<string>, p4: seq<string>)
    ensures p1 + p2 + p3 + p4 == [] + p1 + (p2 + p3 + p4)
    ensures p1 + p2 + p3 + p4 == p1 + p2 + (p3 + p4)
    ensures p1 + p2 + p3 + p4 == p1 + p2 + p3 + p4 + []
    ensures p1 + p2 + p3 + p4 + [] == p1 + p2 + p3 + p4
  {
  }

  /** A glyph's file is requested exactly when its flag is set. */
  lemma RequestedMembers(kwargs: map<string, bool>)
    ensures forall k :: FileName(k) in Requested(kwargs) <==> Flag(kwargs, Key(k))
  {
    forall k ensures FileName(k) in Requested(kwargs) <==> Flag(kwargs, Key(k)) {
      FileNameInjective(k);
      var p1, p2, p3, p4 := Piece(kwargs, Checkmark), Piece(kwargs, Cross), Piece(kwargs, Exclamation), Piece(kwargs, Plus);
      assert FileName(k) in p1 + p2 + p3 + p4 <==> FileName(k) in p1 || FileName(k) in p2 || FileName(k) in p3 || FileName(k) in p4;
    }
  }

  // ---------------------------------------------------------------------
  // The cache, as functions of the cache and the disk before a call
  // ---------------------------------------------------------------------

  predicate Decodes(files: map<string, FileData>, f: string) {
    f in files && files[f].Decodable?
  }

  /** `__loadIcon(f)` yields an icon: it is cached, or its file decodes. */
  predicate Loadable(cache: map<string, Pixmap>, files: map<string, FileData>, f: string) {
    f in cache || Decodes(files, f)
  }

  /** The icon `__loadIcon(f)` yields: the cached one, or the decoded file scaled to `Scale`. */
  function Loaded(cache: map<string, Pixmap>, files: map<string, FileData>, f: string): Pixmap
    requires Loadable(cache, files, f)
  {
    if f in cache then cache[f] else Pixmap(files[f].image, Scaled(Scale))
  }

  /** The cache after one `__loadIcon(f)`. */
  function CacheStep(cache: map<string, Pixmap>, files: map<string, FileData>, f: string): (r: map<string, Pixmap>)
    ensures f in cache ==> r == cache
    ensures f !in cache && Decodes(files, f) ==> r == cache[f := Pixmap(files[f].image, Scaled(Scale))]
    ensures !Loadable(cache, files, f) ==> r == cache
  {
    if f !in cache && Decodes(files, f) then cache[f := Loaded(cache, files, f)] else cache
  }

  /** The cache after loading `names` in turn. */
  function CacheAfter(cache: map<string, Pixmap>, files: map<string, FileData>, names: seq<string>): (r: map<string, Pixmap>)
    ensures cache.Keys <= r.Keys
    decreases |names|
  {
    if names == [] then cache else CacheAfter(CacheStep(cache, files, names[0]), files, names[1..])
  }

  /** The icons loading `names` in turn yields, failures skipped. */
  function Collect(cache: map<string, Pixmap>, files: map<string, FileData>, names: seq<string>): (r: seq<Pixmap>)
    ensures |r| <= |names|
    decreases |names|
  {
    if names == [] then []
    else (if Loadable(cache, files, names[0]) then [Loaded(cache, files, names[0])] else [])
         + Collect(CacheStep(cache, files, names[0]), files, names[1..])
  }

  /** The warnings loading `names` in turn emits: one per name that cannot be loaded. */
  function NotFound(cache: map<string, Pixmap>, files: map<string, FileData>, names: seq<string>): (r: seq<string>)
    ensures |r| <= |names|
    decreases |names|
  {
    if names == [] then []
    else (if Loadable(cache, files, names[0]) then [] else [NotFoundMessage(names[0])])
         + NotFound(CacheStep(cache, files, names[0]), files, names[1..])
  }

  /** The first icon among `names` that loads, if any. */
  function FirstLoaded(cache: map<string, Pixmap>, files: map<string, FileData>, names: seq<string>): (r: Option<Pixmap>)
    ensures r.None? <==> forall g :: g in names ==> !Loadable(cache, files, g)
  {
    if names == [] then None
    else if Loadable(cache, files, names[0]) then Some(Loaded(cache, files, names[0]))
    else FirstLoaded(cache, files, names[1..])
  }

  /** The names `getIcon` tries: up to and including the first that loads. */
  function Tried(cache: map<string, Pixmap>, files: map<string, FileData>, names: seq<string>): (r: seq<string>)
    ensures |r| <= |names| && r == names[..|r|]
  {
    if names == [] then []
    else if Loadable(cache, files, names[0]) then [names[0]]
    else [names[0]] + Tried(cache, files, names[1..])
  }

  /** For a fixed disk, a load never changes what any later load yields. */
  lemma CacheStepAgrees(cache: map<string, Pixmap>, files: map<string, FileData>, f: string, g: string)
    ensures Loadable(CacheStep(cache, files, f), files, g) == Loadable(cache, files, g)
    ensures Loadable(cache, files, g) ==> Loaded(CacheStep(cache, files, f), files, g) == Loaded(cache, files, g)
  {
  }

  /** Loading any names keeps every cached icon and what every name yields. */
  lemma {:induction false} CacheAfterAgrees(cache: map<string, Pixmap>, files: map<string, FileData>, names: seq<string>, g: string)
    ensures g in cache ==> g in CacheAfter(cache, files, names) && CacheAfter(cache, files, names)[g] == cache[g]
    ensures Loadable(CacheAfter(cache, files, names), files, g) == Loadable(cache, files, g)
    ensures Loadable(cache, files, g) ==> Loaded(CacheAfter(cache, files, names), files, g) == Loaded(cache, files, g)
    decreases |names|
  {
    if names != [] {
      CacheStepAgrees(cache, files, names[0], g);
      CacheAfterAgrees(CacheStep(cache, files, names[0]), files, names[1..], g);
    }
  }

  /** Loading inserts exactly the requested names that decode and were not cached. */
  lemma {:induction false} CacheAfterKeys(cache: map<string, Pixmap>, files: map<string, FileData>, names: seq<string>, g: string)
    ensures g in CacheAfter(cache, files, names) <==> g in cache || (g in names && Decodes(files, g))
    decreases |names|
  {
    if names != [] {
      CacheAfterKeys(CacheStep(cache, files, names[0]), files, names[1..], g);
      assert g in names <==> g == names[0] || g in names[1..];
    }
  }

  /** Loading `done` then `f` leaves the cache loading `done + [f]` leaves. */
  lemma {:induction false} CacheAfterSnoc(cache: map<string, Pixmap>, files: map<string, FileData>, done: seq<string>, f: string)
    ensures CacheAfter(cache, files, done + [f]) == CacheStep(CacheAfter(cache, files, done), files, f)
    decreases |done|
  {
    if done == [] {
      assert done + [f] == [f];
    } else {
      assert (done + [f])[0] == done[0] && (done + [f])[1..] == done[1..] + [f];
      CacheAfterSnoc(CacheStep(cache, files, done[0]), files, done[1..], f);
    }
  }

  /** Loading `done` then `f` yields the icons of `done`, then that of `f`. */
  lemma {:induction false} CollectSnoc(cache: map<string, Pixmap>, files: map<string, FileData>, done: seq<string>, f: string)
    ensures Collect(cache, files, done + [f])
            == Collect(cache, files, done) + Collect(CacheAfter(cache, files, done), files, [f])
    decreases |done|
  {
    if done == [] {
      assert done + [f] == [f];
    } else {
      var head: seq<Pixmap> := if Loadable(cache, files, done[0]) then [Loaded(cache, files, done[0])] else [];
      var next := CacheStep(cache, files, done[0]);
      assert (done + [f])[0] == done[0] && (done + [f])[1..] == done[1..] + [f];
      CollectSnoc(next, files, done[1..], f);
      calc {
        Collect(cache, files, done + [f]);
        head + Collect(next, files, done[1..] + [f]);
        head + (Collect(next, files, done[1..]) + Collect(CacheAfter(next, files, done[1..]), files, [f]));
        (head + Collect(next, files, done[1..])) + Collect(CacheAfter(next, files, done[1..]), files, [f]);
      }
    }
  }

  /** Loading `done` then `f` warns about `done`, then about `f`. */
  lemma {:induction false} NotFoundSnoc(cache: map<string, Pixmap>, files: map<string, FileData>, done: seq<string>, f: string)
    ensures NotFound(cache, files, done + [f])
            == NotFound(cache, files, done) + NotFound(CacheAfter(cache, files, done), files, [f])
    decreases |done|
  {
    if done == [] {
      assert done + [f] == [f];
    } else {
      var head: seq<string> := if Loadable(cache, files, done[0]) then [] else [NotFoundMessage(done[0])];
      var next := CacheStep(cache, files, done[0]);
      assert (done + [f])[0] == done[0] && (done + [f])[1..] == done[1..] + [f];
      NotFoundSnoc(next, files, done[1..], f);
      calc {
        NotFound(cache, files, done + [f]);
        head + NotFound(next, files, done[1..] + [f]);
        head + (NotFound(next, files, done[1..]) + NotFound(CacheAfter(next, files, done[1..]), files, [f]));
        (head + NotFound(next, files, done[1..])) + NotFound(CacheAfter(next, files, done[1..]), files, [f]);
      }
    }
  }

  /** Names that all fail are tried in full, leave the cache as it was and yield nothing. */
  lemma {:induction false} FailedPrefix(cache: map<string, Pixmap>, files: map<string, FileData>, done: seq<string>, rest: seq<string>)
    requires forall g :: g in done ==> !Loadable(cache, files, g)
    ensures Tried(cache, files, done + rest) == done + Tried(cache, files, rest)
    ensures FirstLoaded(cache, files, done + rest) == FirstLoaded(cache, files, rest)
    ensures CacheAfter(cache, files, done) == cache
    ensures Collect(cache, files, done) == []
  {
    if done == [] {
      assert done + rest == rest;
    } else {
      assert (done + rest)[0] == done[0];
      assert (done + rest)[1..] == done[1..] + rest;
      FailedPrefix(cache, files, done[1..], rest);
    }
  }

  /** After failures in `done`, a name that loads ends the search: it is returned and cached. */
  lemma StopAt(cache: map<string, Pixmap>, files: map<string, FileData>, done: seq<string>, f: string, rest: seq<string>)
    requires forall g :: g in done ==> !Loadable(cache, files, g)
    requires Loadable(cache, files, f)
    ensures Tried(cache, files, done + [f] + rest) == done + [f]
    ensures FirstLoaded(cache, files, done + [f] + rest) == Some(Loaded(cache, files, f))
    ensures CacheAfter(cache, files, done + [f]) == CacheStep(cache, files, f)
    ensures NotFound(cache, files, done + [f]) == NotFound(cache, files, done)
  {
    assert done + [f] + rest == done + ([f] + rest);
    FailedPrefix(cache, files, done, [f] + rest);
    CacheAfterSnoc(cache, files, done, f);
    NotFoundSnoc(cache, files, done, f);
  }

  /** getIcon's choice is the first icon getIcons would return, and it tries names only up to it. */
  lemma {:induction false} FirstLoadedIsFirstCollected(cache: map<string, Pixmap>, files: map<string, FileData>, names: seq<string>)
    ensures FirstLoaded(cache, files, names)
            == if Collect(cache, files, names) == [] then None else Some(Collect(cache, files, names)[0])
    ensures Collect(cache, files, Tried(cache, files, names))
            == if FirstLoaded(cache, files, names).Some? then [FirstLoaded(cache, files, names).value] else []
  {
    if names != [] {
      FirstLoadedIsFirstCollected(cache, files, names[1..]);
      if !Loadable(cache, files, names[0]) {
        var t := Tried(cache, files, names[1..]);
        assert Tried(cache, files, names) == [names[0]] + t;
        assert ([names[0]] + t)[0] == names[0] && ([names[0]] + t)[1..] == t;
      }
    }
  }

  /** The first requested name that loads decides getIcon's result; none loading gives None. */
  lemma {:induction false} FirstLoadedSpec(cache: map<string, Pixmap>, files: map<string, FileData>, names: seq<string>)
    ensures FirstLoaded(cache, files, names).None? <==> forall g :: g in names ==> !Loadable(cache, files, g)
    ensures FirstLoaded(cache, files, names).Some? ==>
              exists i :: 0 <= i < |names| && Loadable(cache, files, names[i])
                && (forall j :: 0 <= j < i ==> !Loadable(cache, files, names[j]))
                && FirstLoaded(cache, files, names).value == Loaded(cache, files, names[i])
  {
    if names != [] {
      FirstLoadedSpec(cache, files, names[1..]);
      if !Loadable(cache, files, names[0]) && FirstLoaded(cache, files, names).Some? {
        var i :| 0 <= i < |names[1..]| && Loadable(cache, files, names[1..][i])
                 && (forall j :: 0 <= j < i ==> !Loadable(cache, files, names[1..][j]))
                 && FirstLoaded(cache, files, names[1..]).value == Loaded(cache, files, names[1..][i]);
        forall j | 0 <= j < i + 1 ensures !Loadable(cache, files, names[j]) {
          if j > 0 { assert names[j] == names[1..][j - 1]; }
        }
        assert names[i + 1] == names[1..][i];
      }
      if !Loadable(cache, files, names[0]) {
        assert forall g :: g in names ==> g == names[0] || g in names[1..];
      }
    }
  }

  // ---------------------------------------------------------------------
  // Rendering, as a function of the disk
  // ---------------------------------------------------------------------

  /** Every glyph is one of the four. */
  lemma InAllKinds(k: IconKind)
    ensures k in AllKinds
  {
    match k
    case Checkmark => assert AllKinds[0] == k;
    case Cross => assert AllKinds[1] == k;
    case Exclamation => assert AllKinds[2] == k;
    case Plus => assert AllKinds[3] == k;
  }

  /** The glyphs whose file is missing, in drawing order. */
  function MissingKinds(files: map<string, FileData>): (r: seq<IconKind>)
    ensures |r| <= |AllKinds|
  {
    Keep(AllKinds, files)
  }

  /** The glyphs of `kinds` whose file is missing, in order. */
  function Keep(kinds: seq<IconKind>, files: map<string, FileData>): (r: seq<IconKind>)
    ensures |r| <= |kinds|
    decreases |kinds|
  {
    if kinds == [] then []
    else (if FileName(kinds[0]) !in files then [kinds[0]] else []) + Keep(kinds[1..], files)
  }

  /** `Keep` keeps exactly the glyphs whose file is missing. */
  lemma {:induction false} KeepMembers(kinds: seq<IconKind>, files: map<string, FileData>, k: IconKind)
    ensures k in Keep(kinds, files) <==> k in kinds && FileName(k) !in files
    decreases |kinds|
  {
    if kinds != [] {
      KeepMembers(kinds[1..], files, k);
      assert k in kinds <==> k == kinds[0] || k in kinds[1..];
    }
  }

  /** A glyph is missing exactly when its file is not on disk. */
  lemma MissingKindsMembers(files: map<string, FileData>, k: IconKind)
    ensures k in MissingKinds(files) <==> FileName(k) !in files
  {
    InAllKinds(k);
    KeepMembers(AllKinds, files, k);
  }

  /** What `renderRequired` draws: everything when the directory was missing, else the missing files. */
  function ToRender(dirExisted: bool, files: map<string, FileData>): (r: seq<IconKind>)
    ensures |r| <= |AllKinds|
    ensures dirExisted ==> r == MissingKinds(files)
  {
    if !dirExisted then AllKinds else MissingKinds(files)
  }

  /** The disk after drawing `kinds` in turn. */
  function WithGlyphs(files: map<string, FileData>, kinds: seq<IconKind>): (r: map<string, FileData>)
    ensures files.Keys <= r.Keys
    decreases |kinds|
  {
    if kinds == [] then files
    else WithGlyphs(files[FileName(kinds[0]) := Decodable(Glyph(kinds[0]))], kinds[1..])
  }

  /** Each glyph has its own file. */
  lemma FileNameInjective(k: IconKind)
    ensures forall j :: FileName(j) == FileName(k) ==> j == k
  {
  }

  /** Drawing `done` then `k` is drawing `done + [k]`. */
  lemma {:induction false} WithGlyphsSnoc(files: map<string, FileData>, done: seq<IconKind>, k: IconKind)
    ensures WithGlyphs(files, done + [k]) == WithGlyphs(files, done)[FileName(k) := Decodable(Glyph(k))]
    decreases |done|
  {
    if done == [] {
      assert done + [k] == [k];
    } else {
      assert (done + [k])[0] == done[0] && (done + [k])[1..] == done[1..] + [k];
      WithGlyphsSnoc(files[FileName(done[0]) := Decodable(Glyph(done[0]))], done[1..], k);
    }
  }

  /** Checking one glyph keeps it exactly when its file is missing. */
  lemma KeepSingle(k: IconKind, files: map<string, FileData>)
    ensures Keep([k], files) == if FileName(k) !in files then [k] else []
  {
    assert [k][1..] == [];
  }

  /** Checking `kinds` then `k` is checking `kinds + [k]`. */
  lemma {:induction false} KeepSnoc(kinds: seq<IconKind>, k: IconKind, files: map<string, FileData>)
    ensures Keep(kinds + [k], files) == Keep(kinds, files) + Keep([k], files)
    decreases |kinds|
  {
    if kinds == [] {
      assert kinds + [k] == [k];
    } else {
      assert (kinds + [k])[0] == kinds[0] && (kinds + [k])[1..] == kinds[1..] + [k];
      KeepSnoc(kinds[1..], k, files);
    }
  }

  /** Drawing keeps every file and adds the file of every glyph drawn. */
  lemma {:induction false} WithGlyphsHas(files: map<string, FileData>, kinds: seq<IconKind>)
    ensures forall g :: g in files ==> g in WithGlyphs(files, kinds)
    ensures forall k :: k in kinds ==> FileName(k) in WithGlyphs(files, kinds)
    decreases |kinds|
  {
    if kinds != [] {
      WithGlyphsHas(files[FileName(kinds[0]) := Decodable(Glyph(kinds[0]))], kinds[1..]);
      assert forall k :: k in kinds ==> k == kinds[0] || k in kinds[1..];
    }
  }

  /** A file no glyph in `kinds` is drawn to is present afterwards exactly when before, with its content. */
  lemma {:induction false} WithGlyphsKeeps(files: map<string, FileData>, kinds: seq<IconKind>, f: string)
    requires forall k :: k in kinds ==> FileName(k) != f
    ensures f in WithGlyphs(files, kinds) <==> f in files
    ensures f in files ==> WithGlyphs(files, kinds)[f] == files[f]
    decreases |kinds|
  {
    if kinds != [] {
      assert kinds[0] in kinds;
      WithGlyphsKeeps(files[FileName(kinds[0]) := Decodable(Glyph(kinds[0]))], kinds[1..], f);
    }
  }

  /** After `renderRequired` all four files exist, and existing files were left as they were. */
  lemma RenderRequiredEffect(dirExisted: bool, files: map<string, FileData>)
    requires !dirExisted ==> files == map[]
    ensures forall k :: FileName(k) in WithGlyphs(files, ToRender(dirExisted, files))
    ensures forall f :: f in files ==>
              f in WithGlyphs(files, ToRender(dirExisted, files)) && WithGlyphs(files, ToRender(dirExisted, files))[f] == files[f]
  {
    var after := WithGlyphs(files, ToRender(dirExisted, files));
    WithGlyphsHas(files, ToRender(dirExisted, files));
    forall k ensures FileName(k) in after {
      InAllKinds(k);
      if dirExisted && FileName(k) in files {
      } else {
        if dirExisted { MissingKindsMembers(files, k); }
        assert k in ToRender(dirExisted, files);
      }
    }
    forall f | f in files ensures after[f] == files[f] {
      assert dirExisted;
      forall k | k in MissingKinds(files) ensures FileName(k) != f {
        MissingKindsMembers(files, k);
      }
      WithGlyphsKeeps(files, MissingKinds(files), f);
    }
  }

  /** Nothing is kept when every glyph's file exists. */
  lemma {:induction false} KeepNone(kinds: seq<IconKind>, files: map<string, FileData>)
    requires forall k :: FileName(k) in files
    ensures Keep(kinds, files) == []
  {
    if kinds != [] {
      KeepNone(kinds[1..], files);
      assert FileName(kinds[0]) in files;
    }
  }

  /** `renderRequired` is idempotent: a second call, the directory now present, draws nothing. */
  lemma RenderRequiredIdempotent(dirExisted: bool, files: map<string, FileData>)
    requires !dirExisted ==> files == map[]
    ensures ToRender(true, WithGlyphs(files, ToRender(dirExisted, files))) == []
  {
    RenderRequiredEffect(dirExisted, files);
    KeepNone(AllKinds, WithGlyphs(files, ToRender(dirExisted, files)));
  }

  /** With the directory missing there are no files, so "all" and "the missing ones" agree. */
  lemma RenderAllIsRenderMissing()
    ensures MissingKinds(map[]) == AllKinds
  {
    var none: map<string, FileData> := map[];
    assert Keep(AllKinds[3..], none) == [Plus];
    assert Keep(AllKinds[2..], none) == [Exclamation, Plus];
    assert Keep(AllKinds[1..], none) == [Cross, Exclamation, Plus];
  }

  // ---------------------------------------------------------------------
  // The renderer object
  // ---------------------------------------------------------------------

  class IconRenderer {
    /** Where `cmds.warning` writes. */
    const log: Host.MayaLog
    /** Qt's built-in resource images, by name. */
    const resources: map<string, Image>

    /** The icon directory: whether it exists, and its files. */
    var dirExists: bool
    var files: map<string, FileData>

    /** `__loadedIcons`: icons decoded so far, by file name. */
    var loadedIcons: map<string, Pixmap>
    var requiredChecked: bool

    /** Every decode of a file from disk so far, counted per file. */
    ghost var decoded: multiset<string>
    /** Every glyph drawn, in order. */
    ghost var rendered: seq<IconKind>
    /** How often `renderRequired` has run. */
    ghost var requiredRuns: nat

    ghost predicate Valid()
      reads this
    {
      && (!dirExists ==> files == map[])
      && decoded == multiset(loadedIcons.Keys)
      && (requiredChecked <==> requiredRuns > 0)
    }

    /** The decode count of every file mirrors the cache keys, so no file is decoded twice. */
    lemma DecodedAtMostOnce(f: string)
      requires Valid()
      ensures decoded[f] <= 1
      ensures decoded[f] == 1 <==> f in loadedIcons
    {
    }

    /** `__init__`: make sure the directory exists; start with an empty cache, nothing checked. */
    constructor (log: Host.MayaLog, resources: map<string, Image>, dirExists: bool, files: map<string, FileData>)
      requires !dirExists ==> files == map[]
      ensures Valid()
      ensures this.log == log && this.resources == resources
      ensures this.dirExists && this.files == files
      ensures loadedIcons == map[] && !requiredChecked
      ensures decoded == multiset{} && rendered == [] && requiredRuns == 0
    {
      this.log := log;
      this.resources := resources;
      this.dirExists := true;
      this.files := files;
      loadedIcons := map[];
      requiredChecked := false;
      decoded := multiset{};
      rendered := [];
      requiredRuns := 0;
    }

    /** `scale`: the width loaded icons are scaled to. */
    function ScaleWidth(): (w: nat)
      ensures w == 20
    {
      Scale
    }

    /**
     * `__loadIcon`: a cached icon is returned without touching the disk; an
     * uncached file is decoded, scaled and cached; a file that does not
     * decode draws a warning and leaves the cache alone.
     */
    method LoadIcon(f: string) returns (r: Option<Pixmap>)
      requires Valid()
      modifies this, log
      ensures Valid()
      ensures dirExists == old(dirExists) && files == old(files) && requiredChecked == old(requiredChecked)
      ensures rendered == old(rendered) && requiredRuns == old(requiredRuns)
      ensures r == if Loadable(old(loadedIcons), files, f) then Some(Loaded(old(loadedIcons), files, f)) else None
      ensures loadedIcons == CacheStep(old(loadedIcons), files, f)
      ensures log.warnings == old(log.warnings) + NotFound(old(loadedIcons), files, [f])
      // A cache hit never decodes: the "no re-decode" promise, spelled out.
      ensures f in old(loadedIcons) ==> decoded == old(decoded)
      ensures decoded == if f !in old(loadedIcons) && Decodes(files, f) then old(decoded) + multiset{f} else old(decoded)
    {
      if f in loadedIcons {
        r := Some(loadedIcons[f]);
        return;
      }
      var icon := if f in files && files[f].Decodable? then Pixmap(files[f].image, Native) else Null;
      if !icon.Null? {
        loadedIcons := loadedIcons[f := ScaledToWidth(icon, Scale)];
        decoded := decoded + multiset{f};
        r := Some(loadedIcons[f]);
        return;
      }
      log.Warning(NotFoundMessage(f));
      r := None;
    }

    /**
     * One block of `getIcons`: when the glyph's flag is set, load its file
     * and append the icon if the load succeeded.
     */
    method AppendLoaded(kwargs: map<string, bool>, k: IconKind, icons: seq<Pixmap>,
                        ghost c0: map<string, Pixmap>, ghost w0: seq<string>, ghost done: seq<string>)
      returns (icons': seq<Pixmap>, ghost done': seq<string>)
      requires Valid()
      requires loadedIcons == CacheAfter(c0, files, done) && log.warnings == w0 + NotFound(c0, files, done)
      requires icons == Collect(c0, files, done)
      modifies this, log
      ensures Valid()
      ensures dirExists == old(dirExists) && files == old(files) && requiredChecked == old(requiredChecked)
      ensures rendered == old(rendered) && requiredRuns == old(requiredRuns)
      ensures done' == done + Piece(kwargs, k)
      ensures loadedIcons == CacheAfter(c0, files, done')
      ensures log.warnings == w0 + NotFound(c0, files, done')
      ensures icons' == Collect(c0, files, done')
    {
      icons', done' := icons, done;
      if Flag(kwargs, Key(k)) {
        var f := FileName(k);
        CacheAfterSnoc(c0, files, done, f);
        CollectSnoc(c0, files, done, f);
        NotFoundSnoc(c0, files, done, f);
        assert [f][1..] == [];
        var icon := LoadIcon(f);
        if icon.Some? {
          icons' := icons' + [icon.value];
        }
        done' := done + [f];
      } else {
        assert Piece(kwargs, k) == [];
        assert done + [] == done;
      }
    }

    /** `getIcons`: at most one icon per set flag, in the fixed order, skipping files that fail to load. */
    method GetIcons(kwargs: map<string, bool>) returns (icons: seq<Pixmap>)
      requires Valid()
      modifies this, log
      ensures Valid()
      ensures dirExists == old(dirExists) && files == old(files) && requiredChecked == old(requiredChecked)
      ensures rendered == old(rendered) && requiredRuns == old(requiredRuns)
      ensures icons == Collect(old(loadedIcons), files, Requested(kwargs))
      ensures |icons| <= 4
      ensures loadedIcons == CacheAfter(old(loadedIcons), files, Requested(kwargs))
      ensures log.warnings == old(log.warnings) + NotFound(old(loadedIcons), files, Requested(kwargs))
    {
      ghost var c0 := loadedIcons;
      ghost var w0 := log.warnings;
      ghost var done: seq<string> := [];
      icons := [];
      icons, done := AppendLoaded(kwargs, Checkmark, icons, c0, w0, done);
      icons, done := AppendLoaded(kwargs, Cross, icons, c0, w0, done);
      icons, done := AppendLoaded(kwargs, Exclamation, icons, c0, w0, done);
      icons, done := AppendLoaded(kwargs, Plus, icons, c0, w0, done);
      assert [] + Piece(kwargs, Checkmark) == Piece(kwargs, Checkmark);
    }

    /**
     * One block of `getIcon`: when the glyph's flag is set, try to load its
     * file. Reached only while every earlier requested file has failed; a
     * success ends the search with `getIcon`'s result.
     */
    method TryFlag(kwargs: map<string, bool>, k: IconKind, ghost c0: map<string, Pixmap>, ghost w0: seq<string>,
                   ghost done: seq<string>, ghost rest: seq<string>)
      returns (icon: Option<Pixmap>, ghost done': seq<string>)
      requires Valid()
      requires Requested(kwargs) == done + Piece(kwargs, k) + rest
      requires forall g :: g in done ==> !Loadable(c0, files, g)
      requires loadedIcons == c0 && log.warnings == w0 + NotFound(c0, files, done)
      modifies this, log
      ensures Valid()
      ensures dirExists == old(dirExists) && files == old(files) && requiredChecked == old(requiredChecked)
      ensures rendered == old(rendered) && requiredRuns == old(requiredRuns)
      ensures done' == done + Piece(kwargs, k)
      ensures icon.None? ==>
                (forall g :: g in done' ==> !Loadable(c0, files, g))
                && loadedIcons == c0 && log.warnings == w0 + NotFound(c0, files, done')
      ensures icon.Some? ==>
                FirstLoaded(c0, files, Requested(kwargs)) == icon
                && loadedIcons == CacheAfter(c0, files, Tried(c0, files, Requested(kwargs)))
                && log.warnings == w0 + NotFound(c0, files, Tried(c0, files, Requested(kwargs)))
    {
      icon, done' := None, done;
      if Flag(kwargs, Key(k)) {
        icon := TryLoad(FileName(k), c0, w0, done, rest);
        done' := done + [FileName(k)];
      } else {
        assert Piece(kwargs, k) == [];
        assert done + [] == done;
      }
    }

    /** The load inside one block of `getIcon`, after the failures in `done`. */
    method TryLoad(f: string, ghost c0: map<string, Pixmap>, ghost w0: seq<string>,
                   ghost done: seq<string>, ghost rest: seq<string>)
      returns (icon: Option<Pixmap>)
      requires Valid()
      requires forall g :: g in done ==> !Loadable(c0, files, g)
      requires loadedIcons == c0 && log.warnings == w0 + NotFound(c0, files, done)
      modifies this, log
      ensures Valid()
      ensures dirExists == old(dirExists) && files == old(files) && requiredChecked == old(requiredChecked)
      ensures rendered == old(rendered) && requiredRuns == old(requiredRuns)
      ensures icon.None? ==>
                !Loadable(c0, files, f) && loadedIcons == c0 && log.warnings == w0 + NotFound(c0, files, done + [f])
      ensures icon.Some? ==>
                FirstLoaded(c0, files, done + [f] + rest) == icon
                && loadedIcons == CacheAfter(c0, files, Tried(c0, files, done + [f] + rest))
                && log.warnings == w0 + NotFound(c0, files, Tried(c0, files, done + [f] + rest))
    {
      FailedPrefix(c0, files, done, []);
      NotFoundSnoc(c0, files, done, f);
      assert [f][1..] == [];
      if Loadable(c0, files, f) {
        StopAt(c0, files, done, f, rest);
      }
      icon := LoadIcon(f);
    }

    /**
     * `getIcon`: a non-empty `path` names a Qt resource, scaled and returned
     * without touching the cache. Otherwise the first requested glyph, in
     * the order checkmark, cross, exclamation, plus, that loads is returned;
     * when none loads, the question-mark resource.
     */
    method GetIcon(path: string := "", kwargs: map<string, bool> := map[]) returns (p: Pixmap)
      requires Valid()
      modifies this, log
      ensures Valid()
      ensures dirExists == old(dirExists) && files == old(files) && requiredChecked == old(requiredChecked)
      ensures rendered == old(rendered) && requiredRuns == old(requiredRuns)
      ensures |path| > 0 ==>
                p == ScaledToWidth(Resource(resources, path), Scale)
                && loadedIcons == old(loadedIcons) && log.warnings == old(log.warnings)
      ensures |path| == 0 ==>
                p == match FirstLoaded(old(loadedIcons), files, Requested(kwargs))
                     case Some(q) => q
                     case None => Resource(resources, FallbackResource)
      ensures |path| == 0 ==>
                loadedIcons == CacheAfter(old(loadedIcons), files, Tried(old(loadedIcons), files, Requested(kwargs)))
      ensures |path| == 0 ==>
                log.warnings == old(log.warnings) + NotFound(old(loadedIcons), files, Tried(old(loadedIcons), files, Requested(kwargs)))
    {
      if |path| > 0 {
        p := ScaledToWidth(Resource(resources, path), Scale);
      } else {
        p := GetFlagged(kwargs);
      }
    }

    /** `getIcon` without a path: the first requested glyph that loads, else the question mark. */
    method GetFlagged(kwargs: map<string, bool>) returns (p: Pixmap)
      requires Valid()
      modifies this, log
      ensures Valid()
      ensures dirExists == old(dirExists) && files == old(files) && requiredChecked == old(requiredChecked)
      ensures rendered == old(rendered) && requiredRuns == old(requiredRuns)
      ensures p == match FirstLoaded(old(loadedIcons), files, Requested(kwargs))
                   case Some(q) => q
                   case None => Resource(resources, FallbackResource)
      ensures loadedIcons == CacheAfter(old(loadedIcons), files, Tried(old(loadedIcons), files, Requested(kwargs)))
      ensures log.warnings == old(log.warnings) + NotFound(old(loadedIcons), files, Tried(old(loadedIcons), files, Requested(kwargs)))
    {
      ghost var c0 := loadedIcons;
      ghost var w0 := log.warnings;
      ghost var p1, p2, p3, p4 := Piece(kwargs, Checkmark), Piece(kwargs, Cross), Piece(kwargs, Exclamation), Piece(kwargs, Plus);
      ghost var done: seq<string> := [];
      Regroup(p1, p2, p3, p4);
      var icon;
      icon, done := TryFlag(kwargs, Checkmark, c0, w0, done, p2 + p3 + p4);
      if icon.Some? {
        return icon.value;
      }
      icon, done := TryFlag(kwargs, Cross, c0, w0, done, p3 + p4);
      if icon.Some? {
        return icon.value;
      }
      assert Requested(kwargs) == done + p3 + p4;
      p := GetFlaggedTail(kwargs, c0, w0, done);
    }

    /** The last two blocks of `getIcon`, after the checkmark and cross files in `done` have failed. */
    method GetFlaggedTail(kwargs: map<string, bool>, ghost c0: map<string, Pixmap>, ghost w0: seq<string>,
                          ghost done: seq<string>) returns (p: Pixmap)
      requires Valid()
      requires Requested(kwargs) == done + Piece(kwargs, Exclamation) + Piece(kwargs, Plus)
      requires forall g :: g in done ==> !Loadable(c0, files, g)
      requires loadedIcons == c0 && log.warnings == w0 + NotFound(c0, files, done)
      modifies this, log
      ensures Valid()
      ensures dirExists == old(dirExists) && files == old(files) && requiredChecked == old(requiredChecked)
      ensures rendered == old(rendered) && requiredRuns == old(requiredRuns)
      ensures p == match FirstLoaded(c0, files, Requested(kwargs))
                   case Some(q) => q
                   case None => Resource(resources, FallbackResource)
      ensures loadedIcons == CacheAfter(c0, files, Tried(c0, files, Requested(kwargs)))
      ensures log.warnings == w0 + NotFound(c0, files, Tried(c0, files, Requested(kwargs)))
    {
      ghost var done' := done;
      var icon;
      icon, done' := TryFlag(kwargs, Exclamation, c0, w0, done', Piece(kwargs, Plus));
      if icon.Some? {
        return icon.value;
      }
      assert Requested(kwargs) == done' + Piece(kwargs, Plus) + [];
      icon, done' := TryFlag(kwargs, Plus, c0, w0, done', []);
      if icon.Some? {
        return icon.value;
      }
      FailedPrefix(c0, files, done', []);
      assert done' == Requested(kwargs);
      p := Resource(resources, FallbackResource);
    }

    /**
     * `renderCheckmark`, `renderCross`, `renderExclamation`, `renderPlus`:
     * the glyph's SVG file now exists. Without the directory nothing can be
     * written.
     */
    method Render(k: IconKind)
      requires Valid()
      modifies this
      ensures Valid()
      ensures dirExists == old(dirExists) && loadedIcons == old(loadedIcons) && decoded == old(decoded)
      ensures requiredChecked == old(requiredChecked) && requiredRuns == old(requiredRuns)
      ensures files == if dirExists then old(files)[FileName(k) := Decodable(Glyph(k))] else old(files)
      ensures rendered == old(rendered) + [k]
    {
      if dirExists {
        files := files[FileName(k) := Decodable(Glyph(k))];
      }
      rendered := rendered + [k];
    }

    /** `renderAll`: draw the four glyphs in order. */
    method RenderAll()
      requires Valid()
      modifies this
      ensures Valid()
      ensures dirExists == old(dirExists) && loadedIcons == old(loadedIcons) && decoded == old(decoded)
      ensures requiredChecked == old(requiredChecked) && requiredRuns == old(requiredRuns)
      ensures files == if dirExists then WithGlyphs(old(files), AllKinds) else old(files)
      ensures rendered == old(rendered) + AllKinds
    {
      ghost var f0 := files;
      Render(Checkmark);
      Render(Cross);
      Render(Exclamation);
      Render(Plus);
      if dirExists {
        WithGlyphsSnoc(f0, [], Checkmark);
        WithGlyphsSnoc(f0, [Checkmark], Cross);
        WithGlyphsSnoc(f0, [Checkmark, Cross], Exclamation);
        WithGlyphsSnoc(f0, [Checkmark, Cross, Exclamation], Plus);
      }
    }

    /** `__checkDir`: create the directory if needed; say whether it was there. */
    method CheckDir() returns (existed: bool)
      requires Valid()
      modifies this
      ensures Valid()
      ensures existed == old(dirExists) && dirExists
      ensures files == old(files) && loadedIcons == old(loadedIcons) && decoded == old(decoded)
      ensures requiredChecked == old(requiredChecked) && requiredRuns == old(requiredRuns) && rendered == old(rendered)
    {
      existed := dirExists;
      if !dirExists {
        dirExists := true;
      }
    }

    /** `__fileExists`: whether the file is in the icon directory. */
    method FileExists(f: string) returns (b: bool)
      ensures b <==> f in files
    {
      b := f in files;
    }

    /** One block of `renderRequired`: after checking `before`, draw `k` when its file is missing. */
    method RenderIfMissing(k: IconKind, ghost files0: map<string, FileData>, ghost rendered0: seq<IconKind>,
                           ghost before: seq<IconKind>)
      requires Valid() && dirExists && k !in before
      requires files == WithGlyphs(files0, Keep(before, files0)) && rendered == rendered0 + Keep(before, files0)
      modifies this
      ensures Valid() && dirExists
      ensures loadedIcons == old(loadedIcons) && decoded == old(decoded)
      ensures requiredChecked == old(requiredChecked) && requiredRuns == old(requiredRuns)
      ensures files == WithGlyphs(files0, Keep(before + [k], files0))
      ensures rendered == rendered0 + Keep(before + [k], files0)
    {
      ghost var done := Keep(before, files0);
      forall j | j in done ensures FileName(j) != FileName(k) {
        KeepMembers(before, files0, j);
        FileNameInjective(k);
      }
      WithGlyphsKeeps(files0, done, FileName(k));
      KeepSnoc(before, k, files0);
      KeepSingle(k, files0);
      var present := FileExists(FileName(k));
      if !present {
        Render(k);
        WithGlyphsSnoc(files0, done, k);
      } else {
        assert done + [] == done;
      }
    }

    /**
     * `renderRequired`: note that the check ran; when the directory was
     * missing draw every glyph, otherwise only those whose file is missing.
     */
    method RenderRequired()
      requires Valid()
      modifies this
      ensures Valid()
      ensures requiredChecked && requiredRuns == old(requiredRuns) + 1
      ensures dirExists && loadedIcons == old(loadedIcons) && decoded == old(decoded)
      ensures rendered == old(rendered) + ToRender(old(dirExists), old(files))
      ensures files == WithGlyphs(old(files), ToRender(old(dirExists), old(files)))
    {
      requiredChecked := true;
      requiredRuns := requiredRuns + 1;
      var existed := CheckDir();
      if !existed {
        RenderAll();
        return;
      }
      RenderMissing();
    }

    /** The second branch of `renderRequired`: draw each glyph whose file is missing, in order. */
    method RenderMissing()
      requires Valid() && dirExists
      modifies this
      ensures Valid() && dirExists
      ensures loadedIcons == old(loadedIcons) && decoded == old(decoded)
      ensures requiredChecked == old(requiredChecked) && requiredRuns == old(requiredRuns)
      ensures rendered == old(rendered) + MissingKinds(old(files))
      ensures files == WithGlyphs(old(files), MissingKinds(old(files)))
    {
      ghost var f0, r0 := files, rendered;
      assert f0 == WithGlyphs(f0, Keep([], f0)) && r0 == r0 + Keep([], f0);
      RenderIfMissing(Checkmark, f0, r0, []);
      assert [] + [Checkmark] == [Checkmark];
      RenderIfMissing(Cross, f0, r0, [Checkmark]);
      assert [Checkmark] + [Cross] == [Checkmark, Cross];
      RenderIfMissing(Exclamation, f0, r0, [Checkmark, Cross]);
      assert [Checkmark, Cross] + [Exclamation] == [Checkmark, Cross, Exclamation];
      RenderIfMissing(Plus, f0, r0, [Checkmark, Cross, Exclamation]);
      assert [Checkmark, Cross, Exclamation] + [Plus] == AllKinds;
    }
  }
}
