# MayaLightLister core, modelled in Dafny

This project models the bookkeeping inside the MayaLightLister panel. The
panel is a light-listing window for Maya, built with Qt. The model covers
four source files:

- **LightLister.py** (`light_lister.dfy`, module `LightListing`). It refreshes
  the scene's light shapes and their parent transforms. `getLights` then
  computes the rows: a display name per transform (`|grp|key` becomes
  `grp > key`), the transforms that are also keys of the loaded preset, and
  the `"Type"` of each of those. The class `LightLister` keeps the three
  fields of the source object. The list computations are pure functions.
- **IconRenderer.py** (`icon_renderer.dfy`, module `IconRendering`). It holds
  the icon cache keyed by file name. `getIcons` returns at most one icon per
  set flag, in the fixed order, skipping files that fail to load. `getIcon`
  picks one icon by flag precedence, with a question-mark fallback.
  `renderRequired` draws the status glyphs that are missing on disk. The class `IconRenderer` keeps the cache, the `requiredChecked` flag
  and an abstract icon directory. Its methods are proved against the
  specification functions `CacheStep`, `CacheAfter`, `Collect`, `NotFound`,
  `FirstLoaded`, `Tried`, `MissingKinds` and `WithGlyphs`. The lemmas beside
  those functions prove the promised properties.
- **QTableWidgetIcon.py** (`status_widget.dfy`, module `StatusWidget`). The
  status cell of a row. `setStatus(**kwargs)` sets a severity and an icon
  through a sequence of independent flag checks. The constructor calls
  `renderRequired` on the shared renderer only while that renderer has not
  checked yet. The class `StatusIcon` keeps the severity and the label's
  pixmap.
- **LightStatus.py** (`light_status.dfy`, module `LightStatus`). The five
  status constants 0..4, and `random`.

`wrappers.dfy` holds `Option` and `Result`. `host.dfy` holds the Maya
script-editor log (`MayaLog`). Every `cmds.warning` call appends one line to
that log.

The environment is abstracted as follows:

- **Host queries.** `cmds.ls` and `cmds.listRelatives` become a
  `SceneQuery` value: the shapes, and the parent list of each shape.
- **Icon directory.** It is a flag saying whether it exists, plus a map from
  file name to contents. A file is `Decodable(image)` or `Undecodable`.
  `QPixmap(file)` is non-null exactly when the file exists and decodes.
- **Scaling.** `scaledToWidth` records the new width and keeps the image.
- **Drawing.** Drawing a glyph leaves a decodable file holding that glyph.
- **Qt resources.** `":/name"` resources are a fixed map `resources`.
- **Keyword arguments.** Python `**kwargs` is a `map<string, bool>`.
  `"k" in kwargs and kwargs["k"]` is `Flag(kwargs, "k")`.
  `len(kwargs.keys())` is `|kwargs|`.
- **Exceptions.** The two exceptions modelled as `Err` values are `[0]` on
  a shape with no parent and `["Type"]` on a preset entry without that
  field.

Ghost state in `IconRenderer` records what the source only does as side
effects:

- `decoded`: a multiset with one element per decode of a file from disk.
  `LoadIcon` adds `f` exactly when `f` was not cached and decodes. The
  invariant `decoded == multiset(loadedIcons.Keys)` keeps every count at most
  1, so each file is decoded at most once per renderer.
- `rendered`: every glyph drawn, in order.
- `requiredRuns`: how often `renderRequired` has run.

Behaviour of the code worth noting:

- `getIcon(path)` with a non-empty path does not use the cache.
- A requested icon that fails to load does not end `getIcon`. It warns, and
  the search moves on to the next requested flag. The fallback comes only
  when none loads.
- `getLights` does not classify rows. It returns the four lists. Transforms
  that are preset keys are collected as "invalid". Preset keys that are not
  scene transforms produce nothing.
- The at-most-once decode holds per renderer object. It holds process-wide
  only because the widgets share one default renderer.
- The render-all branch of `renderRequired` (IconRenderer.py:87-89) does not
  run in a normal session. `__init__` has already called `__checkDir`
  (IconRenderer.py:12), which creates the directory. The branch is reached
  only if the directory is removed after construction, and no operation here
  removes it.

## Model

| member | source | states |
|---|---|---|
| LightListing.FirstParents | LightLister.py:11-12 | Ok exactly when every shape has a parent. Then there is one transform per shape, and the i-th is the first parent of the i-th shape. Otherwise the error names a shape without a parent. |
| LightListing.ReplaceBars | LightLister.py:20 | The result holds no `\|`. It is longer than the input by two characters per `\|`. |
| LightListing.DisplayName | LightLister.py:20 | The display name holds no `\|`. Its length is len−1+2·count(`\|`) of the path after the first character. An empty path gives an empty name. |
| LightListing.ReplaceBarsRoundTrip | LightLister.py:20 | `RestoreBars` undoes `ReplaceBars` on names without spaces, so no information is lost. |
| LightListing.DisplayNameRoundTrip | LightLister.py:20 | A full path `\|a\|b` with no spaces is recovered from its display name. |
| LightListing.DisplayNames | LightLister.py:20 | One display name per transform, index-aligned. |
| LightListing.ReplaceBarsNoBars | LightLister.py:20 | A name without `\|` is shown unchanged. |
| LightListing.ReplaceBarsAppend | LightLister.py:20 | `replace` works piece by piece: replacing in `a + b` is replacing in `a`, then in `b`. |
| LightListing.DisplayNameDropsRoot | LightLister.py:20 | `light[1:]` drops the root `\|`, and only the rest has its separators replaced. |
| LightListing.DisplayNameNested | LightLister.py:20 | A transform `\|grp\|keyLight` is shown as `grp > keyLight`, for any group and name without `\|`. |
| LightListing.Matches | LightLister.py:16-17 | The result is no longer than the transforms. Every element is both a transform and a preset key. |
| LightListing.MatchesAppend | LightLister.py:17 | Filtering keeps order: filtering `a + b` is filtering `a`, then `b`. |
| LightListing.MatchesCounts | LightLister.py:17 | A transform that is a preset key is kept as often as it occurs, duplicates included. Any other value occurs zero times. |
| LightListing.MatchesMembership | LightLister.py:16-17 | A value is kept if and only if it is a transform and a preset key. |
| LightListing.MatchesAll | LightLister.py:17 | When every transform is a preset key, the transforms come back unchanged. |
| LightListing.MatchesIgnoresForeignKeys | LightLister.py:16-17 | Preset keys that are not scene transforms change nothing. |
| LightListing.MatchesNoKeys | LightLister.py:17 | With no preset keys nothing is kept. |
| LightListing.TypesOf | LightLister.py:18 | Ok exactly when every light's entry has `"Type"`. Then the types are index-aligned with the lights. Otherwise the error names a light without `"Type"`. |
| LightListing.ComputeLights | LightLister.py:16-25 | Ok exactly when every matched transform's entry has `"Type"`. The shapes are returned unchanged, with index-aligned display names. `invalid` is the order-preserving filter. `invalidTypes` has the same length, and its i-th element is `loadedData[invalid[i]]["Type"]`. On an error it names a matched transform whose entry lacks `"Type"`. |
| LightListing.EmptyPresetNoInvalid | LightLister.py:16-18 | With the empty preset, the rows compute without error and both invalid lists are empty. |
| LightListing.LightLister.constructor | LightLister.py:5-8 | The shapes are the queried ones. There is one transform per shape, the first parent, index-aligned. The preset starts empty. |
| LightListing.LightLister.Update | LightLister.py:10-12 | The shapes are always replaced. On success the transforms are the first parents. When a shape has no parent, the error is returned and the old transforms stay. The preset is untouched. |
| LightListing.LightLister.GetLights | LightLister.py:14-25 | Refreshes, then returns `ComputeLights` of the refreshed fields. A failed refresh returns its error. The preset is never modified. The returned shapes are the refreshed ones. |
| LightStatus.Ordinal | LightStatus.py:5-9 | Each constant is at most 4, and `FromOrdinal` maps it back to its status. |
| LightStatus.FromOrdinal | LightStatus.py:5-9 | A status exists for an integer if and only if it lies in 0..4. |
| LightStatus.FromOrdinalRoundTrip | LightStatus.py:5-9 | Every ordinal in 0..4 names a status whose constant is that ordinal. |
| LightStatus.OrdinalInjective | LightStatus.py:5-9 | Two statuses have the same constant if and only if they are the same status. |
| LightStatus.OrdinalsIncreasing | LightStatus.py:5-9 | Found < Outdated < Add < Missing < Undefined. |
| LightStatus.Random | LightStatus.py:14-16 | Returns an integer in 0..4, which is a valid status. |
| Host.MayaLog.Warning | IconRenderer.py:76 | `cmds.warning` appends exactly its message to the log. |
| IconRendering.ScaledToWidth | IconRenderer.py:46-48 | A null pixmap stays null. Any other keeps its image and takes the given width. |
| IconRendering.Resource | IconRenderer.py:47 | `QPixmap(":/name")` is non-null if and only if the resource exists. |
| IconRendering.Requested | IconRenderer.py:27-40 | At most four files are requested. |
| IconRendering.RequestedMembers | IconRenderer.py:27-40 | A glyph's file is requested if and only if its keyword flag is present and true. |
| IconRendering.CacheStep | IconRenderer.py:67-77 | A hit leaves the cache as it is. An uncached file that decodes is inserted, alone, scaled to width 20. A file that fails leaves the cache alone. |
| IconRendering.Collect | IconRenderer.py:25-43 | Loading names yields at most one icon per name. |
| IconRendering.NotFound | IconRenderer.py:75-76 | Loading names warns at most once per name. |
| IconRendering.CacheAfter | IconRenderer.py:67-77 | Reference definition: the cache after loading names in turn. Loads never remove a cached file. CacheAfterKeys and CacheAfterAgrees give its exact keys and values. |
| IconRendering.FirstLoaded | IconRenderer.py:49-64 | Reference definition: the icon of the first requested name that loads. It is None if and only if no name loads. FirstLoadedSpec gives the index characterisation. |
| IconRendering.Tried | IconRenderer.py:49-64 | `getIcon` tries a prefix of the requested names. |
| IconRendering.CacheStepAgrees | IconRenderer.py:67-74 | One load never changes whether any file loads or what it yields. |
| IconRendering.CacheAfterAgrees | IconRenderer.py:67-74 | Loads never evict or change a cached icon. What each name yields does not depend on earlier loads. |
| IconRendering.CacheAfterKeys | IconRenderer.py:67-77 | After loads, the cache holds exactly the earlier entries plus the requested files that decode. Failures are never memoized. |
| IconRendering.CacheAfterSnoc | IconRenderer.py:25-43 | The cache after loading `done` then `f` is one more step after `done`. |
| IconRendering.CollectSnoc | IconRenderer.py:25-43 | The icons from loading `done` then `f` are those of `done` followed by that of `f`. |
| IconRendering.NotFoundSnoc | IconRenderer.py:75-76 | The warnings from loading `done` then `f` are those of `done` followed by that of `f`. |
| IconRendering.FailedPrefix | IconRenderer.py:49-64 | Names that all fail are tried in full. They leave the cache unchanged and yield nothing. |
| IconRendering.StopAt | IconRenderer.py:49-64 | After failures, the first name that loads ends the search. It is returned and cached, and it adds no warning. |
| IconRendering.FirstLoadedIsFirstCollected | IconRenderer.py:25-65 | `getIcon`'s choice is the first icon `getIcons` would return, or none when that list is empty. The names `getIcon` tries yield just that icon. |
| IconRendering.FirstLoadedSpec | IconRenderer.py:49-65 | There is no choice if and only if no requested name loads. Otherwise the choice is the icon of the first requested name that loads. |
| IconRendering.MissingKinds | IconRenderer.py:90-97 | Reference definition: the glyphs whose file is missing, in check order, at most four. MissingKindsMembers gives its members. |
| IconRendering.ToRender | IconRenderer.py:85-97 | Reference definition: what `renderRequired` draws. With the directory present it is exactly `MissingKinds`. Otherwise it is all four glyphs. It never exceeds four. |
| IconRendering.WithGlyphs | IconRenderer.py:79-97 | Reference definition: the disk after drawing glyphs in turn. No file disappears. WithGlyphsHas and WithGlyphsKeeps give its contents. |
| IconRendering.KeepMembers | IconRenderer.py:90-97 | A glyph is kept if and only if it was checked and its file is missing. |
| IconRendering.MissingKindsMembers | IconRenderer.py:90-97 | A glyph is drawn by the second branch of `renderRequired` if and only if its file is missing. |
| IconRendering.KeepSnoc | IconRenderer.py:90-97 | Checking glyphs one after another adds up their drawings in order. |
| IconRendering.WithGlyphsSnoc | IconRenderer.py:79-83 | Drawing a further glyph adds exactly its file. |
| IconRendering.WithGlyphsHas | IconRenderer.py:79-97 | Drawing keeps every existing file and leaves a file for every glyph drawn. |
| IconRendering.WithGlyphsKeeps | IconRenderer.py:90-97 | A file no drawn glyph writes to is present afterwards exactly when it was before, with the same content. |
| IconRendering.RenderRequiredEffect | IconRenderer.py:85-97 | After `renderRequired` all four glyph files exist. Every file that existed keeps its content. |
| IconRendering.KeepNone | IconRenderer.py:90-97 | When every glyph file exists, nothing is drawn. |
| IconRendering.RenderRequiredIdempotent | IconRenderer.py:85-97 | A second `renderRequired`, with the directory now present, draws nothing. |
| IconRendering.RenderAllIsRenderMissing | IconRenderer.py:87-89 | Without a directory there are no files, so drawing all four equals drawing the missing ones. |
| IconRendering.IconRenderer.constructor | IconRenderer.py:7-23 | The directory exists afterwards and the files are unchanged. The cache is empty and `requiredChecked` is false. |
| IconRendering.IconRenderer.ScaleWidth | IconRenderer.py:154-156 | `scale` is 20. |
| IconRendering.IconRenderer.LoadIcon | IconRenderer.py:67-77 | Returns the cached icon or the decoded one, as `Loaded`, or None. The cache becomes `CacheStep`. Exactly the failure warns, with "f not found". The decode count of `f` rises by one exactly when `f` was not cached and decodes. A cached file is never decoded again. |
| IconRendering.IconRenderer.AppendLoaded | IconRenderer.py:27-30 | One `getIcons` block extends the requested names, the icons, the cache and the warnings by that flag's file. |
| IconRendering.IconRenderer.GetIcons | IconRenderer.py:25-43 | Returns `Collect` over the requested files in the fixed order, at most four icons. The cache and the warnings follow those loads. |
| IconRendering.IconRenderer.TryFlag | IconRenderer.py:49-52 | One `getIcon` block. On failure or an unset flag the search goes on. On success it returns `getIcon`'s answer and the final cache and warnings. |
| IconRendering.IconRenderer.TryLoad | IconRenderer.py:50-52 | The load inside one `getIcon` block: it either stops the search with the first loadable requested icon or warns and goes on. |
| IconRendering.IconRenderer.GetIcon | IconRenderer.py:45-65 | A non-empty path returns that resource scaled, leaving the cache and the log alone. Otherwise it returns the first requested icon that loads, else the `kAlertQuestionIcon.png` resource. Only the names tried are loaded and warned about. |
| IconRendering.IconRenderer.GetFlagged | IconRenderer.py:49-65 | The flag part of `getIcon`: the result is `FirstLoaded`, else the fallback. The cache and the warnings follow `Tried`. |
| IconRendering.IconRenderer.GetFlaggedTail | IconRenderer.py:57-65 | After the checkmark and cross files failed, the exclamation and plus blocks and the fallback give the same result, cache and warnings as the whole of `getIcon`. |
| IconRendering.IconRenderer.DecodedAtMostOnce | IconRenderer.py:67-74 | Every file has been decoded at most once, and exactly once if it is cached. |
| IconRendering.IconRenderer.Render | IconRenderer.py:117-152 | Drawing a glyph leaves its file holding that glyph, when the directory exists. |
| IconRendering.IconRenderer.RenderAll | IconRenderer.py:79-83 | Draws checkmark, cross, exclamation and plus, in that order. |
| IconRendering.IconRenderer.CheckDir | IconRenderer.py:111-115 | Returns whether the directory existed. Afterwards it exists. |
| IconRendering.IconRenderer.FileExists | IconRenderer.py:99-100 | True if and only if the file is in the directory. |
| IconRendering.IconRenderer.RenderIfMissing | IconRenderer.py:90-91 | One block of `renderRequired` draws its glyph exactly when the file is missing. |
| IconRendering.IconRenderer.RenderRequired | IconRenderer.py:85-97 | Sets `requiredChecked` and leaves the directory existing. It draws all four glyphs if the directory was missing, else exactly the missing ones in order. The cache is untouched. |
| IconRendering.IconRenderer.RenderMissing | IconRenderer.py:90-97 | With the directory present, draws exactly `MissingKinds` of the old disk. |
| StatusWidget.Raised | QTableWidgetIcon.py:49-65 | Reference definition: the statuses `setStatus` sets, in block order. There are at most four, since Undefined comes only with no arguments. |
| StatusWidget.Outcome | QTableWidgetIcon.py:49-65 | Reference definition: the precedence winner, Undefined, then missing, add, outdated, found. It is Undefined if and only if there are no arguments. OutcomeIsLastRaised ties it to the block order. |
| StatusWidget.Shown | QTableWidgetIcon.py:51-65 | Reference definition: the icon a status shows. Undefined always shows the question mark. ShownSpec covers the glyph statuses. |
| StatusWidget.OutcomeIsLastRaised | QTableWidgetIcon.py:49-65 | The precedence outcome is the status set last in check order. No status is set if and only if there is no outcome. |
| StatusWidget.SingleFlag | QTableWidgetIcon.py:49-60 | found alone gives Found (0), outdated Outdated (1), add Add (2) and missing Missing (3). |
| StatusWidget.LastFlagWins | QTableWidgetIcon.py:49-60 | found together with missing gives Missing, severity 3. |
| StatusWidget.AllFalseKeepsStatus | QTableWidgetIcon.py:49-65 | Keyword arguments that are all false set nothing. |
| StatusWidget.NoArgumentsUndefined | QTableWidgetIcon.py:62-65 | No keyword arguments gives Undefined, severity 4. |
| StatusWidget.RequestedSingle | IconRenderer.py:49-64 | `getIcon(glyph=True)` asks for exactly that glyph's file. |
| StatusWidget.StatusFiles | QTableWidgetIcon.py:49-65 | A status asks for its glyph's file, or for none when it is Undefined. |
| StatusWidget.ShownSpec | QTableWidgetIcon.py:49-65 | A status shows its glyph when that file loads. Otherwise, and always for Undefined, it shows the question mark. |
| StatusWidget.FirstLoadedStable | IconRenderer.py:67-74 | The first loadable requested icon is the same before and after any loads. |
| StatusWidget.ShownStable | QTableWidgetIcon.py:49-60 | The icon a status shows does not depend on the loads of earlier blocks. |
| StatusWidget.StatusStep | QTableWidgetIcon.py:49-60 | One block's `getIcon` continues the cache and the warnings of the earlier blocks with its own file. |
| StatusWidget.StatusIcon.constructor | QTableWidgetIcon.py:20-35 | Severity defaults to 99. `renderRequired` runs only if the renderer had not checked, so a shared renderer runs it at most once. The label shows the scaled resource, or the fallback for a rendered empty path. The cache and the log are untouched. |
| StatusWidget.StatusIcon.Show | QTableWidgetIcon.py:50-51 | One flag block takes its severity and the icon of its status. The cache and the warnings continue. |
| StatusWidget.StatusIcon.ShowIf | QTableWidgetIcon.py:49-51 | When the flag is set, the block overrides the severity and the icon. Otherwise nothing changes. |
| StatusWidget.StatusIcon.ShowFlags | QTableWidgetIcon.py:49-60 | The four flag blocks in order. The state reflects the last status set, or is unchanged when none was set. |
| StatusWidget.StatusIcon.ShowNone | QTableWidgetIcon.py:62-65 | No arguments warns "No status was specified". It then sets severity 4 and the flagless `getIcon()` icon, the fallback. |
| StatusWidget.StatusIcon.SetStatus | QTableWidgetIcon.py:48-65 | The severity is the constant of `Outcome`, the precedence winner, and the icon is that status's icon. Severity and icon are unchanged when no flag is set. The cache and the warnings follow the files asked for. The extra warning comes only when there are no arguments. |

## Left out

- `SortFilterQTableWidgetIcon.lessThan` and `QTableWidgetIcon.__lt__` are not modelled. Their `isinstance` calls get a bool as the class argument, so as written they raise instead of comparing. `__lt__` also does not have a comparator's signature.
- The SVG drawing in `renderCheckmark`, `renderCross`, `renderExclamation`, `renderPlus` and `__initSVGFile` is not modelled. It is Qt painter calls on floating-point geometry. A render is modelled only as "the glyph's file now exists".
- QPixmap decoding and scaling are opaque. A file decodes or it does not, and scaling only records the width.
- LightListerWindow.py (layout, menus, table filling, resizing) is not part of this model.
- The default icon directory path (`os.path.join` with an absolute second part) is not modelled. The directory is abstract.
- Maya queries (`cmds.ls`, `cmds.listRelatives`, `cmds.internalVar`) are inputs. `cmds.warning` is a log.
- The default `renderer=IconRenderer()` argument, created once when the module is loaded and shared by every widget, is not modelled. Callers pass the renderer explicitly.
- LightListing.LightLister.constructor: requires every shape to have a parent. In the source a shape without one raises inside `__init__`, and then no object exists.
- LightListing.LightLister.constructor and LightListing.LightLister.Update: both take one `SceneQuery`. The source asks for short names in `__init__` and for long names in `_update`. That difference is in the answers given, not in the model.
- IconRendering.IconRenderer.constructor: requires a missing directory to hold no files. This is a property of any real disk, not a demand of the source.
- IconRendering.IconRenderer.CheckDir: `os.makedirs` can fail with an OS error, for instance without write permission on the parent directory. The abstract disk never fails, so creating the directory always succeeds in the model. The same holds where `__init__` and `renderRequired` reach it.
- IconRendering.IconRenderer.Render: with the directory missing, the source's painter cannot open its file and writes nothing. The model writes nothing either. This cannot happen after `__checkDir`.
- IconRendering.Collect, IconRendering.NotFound and IconRendering.Tried: their own contracts give only bounds. Their full meaning is proved in the lemmas and in the method contracts that use them.
- StatusWidget.StatusIcon: the label's size and layout are left out. Only the pixmap it shows is modelled.
