/**
 * The scene/preset bookkeeping of the light list (LightLister.py).
 *
 * The host's scene queries are replaced by a `SceneQuery` value: the light
 * shapes `cmds.ls(lights=True)` returns, and for each shape the list
 * `cmds.listRelatives(shape, p=True)` returns. A preset entry is modelled as
 * the string fields of the JSON object loaded for one light path.
 */
module LightListing {
  import opened Wrappers

  type Entry = map<string, string>

  /** What the host answers: the light shapes, and the parents of each. */
  datatype SceneQuery = SceneQuery(shapes: seq<string>, parents: map<string, seq<string>>)

  datatype ListerError =
    | NoParent(shape: string)     // listRelatives gave None or [] and `[0]` raised
    | NoType(light: string)       // loadedData[light]["Type"] raised KeyError

  /** What `getLights` returns. */
  datatype Lights = Lights(display: seq<string>, shapes: seq<string>, invalid: seq<string>, invalidTypes: seq<string>)

  predicate HasParent(q: SceneQuery, shape: string) {
    shape in q.parents && |q.parents[shape]| > 0
  }

  /** The list comprehension of LightLister.py:7 and :12: the first parent of every shape. */
  function FirstParents(q: SceneQuery): (r: Result<seq<string>, ListerError>)
    ensures r.Ok? <==> forall i :: 0 <= i < |q.shapes| ==> HasParent(q, q.shapes[i])
    ensures r.Ok? ==> |r.value| == |q.shapes|
    ensures r.Ok? ==> forall i :: 0 <= i < |q.shapes| ==> r.value[i] == q.parents[q.shapes[i]][0]
    ensures r.Err? ==> r.error.NoParent? && r.error.shape in q.shapes && !HasParent(q, r.error.shape)
  {
    FirstParentsOf(q, q.shapes)
  }

  function FirstParentsOf(q: SceneQuery, shapes: seq<string>): (r: Result<seq<string>, ListerError>)
    ensures r.Ok? <==> forall i :: 0 <= i < |shapes| ==> HasParent(q, shapes[i])
    ensures r.Ok? ==> |r.value| == |shapes|
    ensures r.Ok? ==> forall i :: 0 <= i < |shapes| ==> r.value[i] == q.parents[shapes[i]][0]
    ensures r.Err? ==> r.error.NoParent? && r.error.shape in shapes && !HasParent(q, r.error.shape)
  {
    if shapes == [] then Ok([])
    else if !HasParent(q, shapes[0]) then Err(NoParent(shapes[0]))
    else
      match FirstParentsOf(q, shapes[1..])
      case Err(e) => Err(e)
      case Ok(rest) => Ok([q.parents[shapes[0]][0]] + rest)
  }

  // ---------------------------------------------------------------------
  // Display names: `light[1:].replace('|', ' > ')`
  // ---------------------------------------------------------------------

  /** How many times `c` occurs in `s`. */
  function Count(s: string, c: char): nat {
    if s == [] then 0 else (if s[0] == c then 1 else 0) + Count(s[1..], c)
  }

  /** `str.replace('|', ' > ')`: every path separator becomes the glyph " > ". */
  function ReplaceBars(s: string): (r: string)
    ensures '|' !in r
    ensures |r| == |s| + 2 * Count(s, '|')
  {
    if s == [] then []
    else (if s[0] == '|' then " > " else [s[0]]) + ReplaceBars(s[1..])
  }

  /** The name a light row shows: the path without its first character, separators replaced. */
  function DisplayName(path: string): (r: string)
    ensures '|' !in r
    ensures path != [] ==> |r| == |path| - 1 + 2 * Count(path[1..], '|')
    ensures path == [] ==> r == []
  {
    if path == [] then [] else ReplaceBars(path[1..])
  }

  /** Turns every " > " back into '|': the inverse of ReplaceBars on names without spaces. */
  function RestoreBars(s: string): string
    decreases |s|
  {
    if s == [] then []
    else if |s| >= 3 && s[..3] == " > " then "|" + RestoreBars(s[3..])
    else [s[0]] + RestoreBars(s[1..])
  }

  /** Maya node names hold no spaces, so no information is lost by ReplaceBars. */
  lemma {:induction false} ReplaceBarsRoundTrip(s: string)
    requires ' ' !in s
    ensures RestoreBars(ReplaceBars(s)) == s
  {
    if s != [] {
      ReplaceBarsRoundTrip(s[1..]);
      var tail := ReplaceBars(s[1..]);
      if s[0] == '|' {
        assert ReplaceBars(s) == " > " + tail;
        assert (" > " + tail)[..3] == " > ";
        assert (" > " + tail)[3..] == tail;
      } else {
        assert ReplaceBars(s) == [s[0]] + tail;
        assert ([s[0]] + tail)[1..] == tail;
      }
    }
  }

  /** A full path "|a|b" is recovered from its display name "a > b". */
  lemma DisplayNameRoundTrip(path: string)
    requires |path| > 0 && path[0] == '|' && ' ' !in path
    ensures "|" + RestoreBars(DisplayName(path)) == path
  {
    assert ' ' !in path[1..] by {
      forall i | 0 <= i < |path[1..]| ensures path[1..][i] != ' ' {
        assert path[1..][i] == path[i + 1];
      }
    }
    ReplaceBarsRoundTrip(path[1..]);
  }

  /** A name without separators is shown as it is. */
  lemma {:induction false} ReplaceBarsNoBars(s: string)
    requires '|' !in s
    ensures ReplaceBars(s) == s
  {
    if s != [] {
      assert '|' !in s[1..] by {
        forall i | 0 <= i < |s[1..]| ensures s[1..][i] != '|' {
          assert s[1..][i] == s[i + 1];
        }
      }
      ReplaceBarsNoBars(s[1..]);
      assert [s[0]] + s[1..] == s;
    }
  }

  /** Replacing separators works piece by piece. */
  lemma {:induction false} ReplaceBarsAppend(a: string, b: string)
    ensures ReplaceBars(a + b) == ReplaceBars(a) + ReplaceBars(b)
  {
    if a == [] {
      assert a + b == b;
    } else {
      var glyph := if a[0] == '|' then " > " else [a[0]];
      assert (a + b)[0] == a[0];
      assert (a + b)[1..] == a[1..] + b;
      calc {
        ReplaceBars(a + b);
        glyph + ReplaceBars(a[1..] + b);
        { ReplaceBarsAppend(a[1..], b); }
        glyph + (ReplaceBars(a[1..]) + ReplaceBars(b));
        (glyph + ReplaceBars(a[1..])) + ReplaceBars(b);
        ReplaceBars(a) + ReplaceBars(b);
      }
    }
  }

  /** The leading root separator is dropped; the rest has its separators replaced. */
  lemma DisplayNameDropsRoot(rest: string)
    ensures DisplayName("|" + rest) == ReplaceBars(rest)
  {
    assert ("|" + rest)[1..] == rest;
  }

  /** A transform "|grp|keyLight" under one group is shown as "grp > keyLight". */
  lemma DisplayNameNested(grp: string, name: string)
    requires '|' !in grp && '|' !in name
    ensures DisplayName("|" + grp + "|" + name) == grp + " > " + name
  {
    var rest := grp + ("|" + name);
    assert "|" + grp + "|" + name == "|" + rest;
    DisplayNameDropsRoot(rest);
    ReplaceBarsAppend(grp, "|" + name);
    ReplaceBarsAppend("|", name);
    ReplaceBarsNoBars(grp);
    ReplaceBarsNoBars(name);
    assert ReplaceBars("|") == " > ";
  }

  /** The display names of all transforms, index by index. */
  function DisplayNames(transforms: seq<string>): (r: seq<string>)
    ensures |r| == |transforms|
    ensures forall i :: 0 <= i < |transforms| ==> r[i] == DisplayName(transforms[i])
  {
    seq(|transforms|, i requires 0 <= i < |transforms| => DisplayName(transforms[i]))
  }

  // ---------------------------------------------------------------------
  // Preset membership: `[light for light in lightTransforms if light in dataLights]`
  // ---------------------------------------------------------------------

  /** The transforms that are also preset keys, in scene order, duplicates kept. */
  function Matches(transforms: seq<string>, keys: set<string>): (r: seq<string>)
    ensures |r| <= |transforms|
    ensures forall x :: x in r ==> x in keys && x in transforms
  {
    if transforms == [] then []
    else (if transforms[0] in keys then [transforms[0]] else []) + Matches(transforms[1..], keys)
  }

  /** Filtering a concatenation filters each part in place: the order is kept. */
  lemma {:induction false} MatchesAppend(a: seq<string>, b: seq<string>, keys: set<string>)
    ensures Matches(a + b, keys) == Matches(a, keys) + Matches(b, keys)
  {
    if a != [] {
      assert (a + b)[1..] == a[1..] + b;
      MatchesAppend(a[1..], b, keys);
    } else {
      assert a + b == b;
    }
  }

  /** Every matching transform is kept as often as it occurs; nothing else is kept. */
  lemma {:induction false} MatchesCounts(transforms: seq<string>, keys: set<string>, x: string)
    ensures multiset(Matches(transforms, keys))[x] == if x in keys then multiset(transforms)[x] else 0
  {
    if transforms != [] {
      MatchesCounts(transforms[1..], keys, x);
      assert transforms == [transforms[0]] + transforms[1..];
    }
  }

  /** A transform is kept exactly when it is a scene transform and a preset key. */
  lemma {:induction false} MatchesMembership(transforms: seq<string>, keys: set<string>)
    ensures forall x :: x in Matches(transforms, keys) <==> x in transforms && x in keys
  {
    forall x ensures x in Matches(transforms, keys) <==> x in transforms && x in keys {
      MatchesCounts(transforms, keys, x);
    }
  }

  /** A transform set wholly inside the preset is returned unchanged. */
  lemma {:induction false} MatchesAll(transforms: seq<string>, keys: set<string>)
    requires forall x :: x in transforms ==> x in keys
    ensures Matches(transforms, keys) == transforms
  {
    if transforms != [] {
      MatchesAll(transforms[1..], keys);
      assert transforms == [transforms[0]] + transforms[1..];
    }
  }

  /** Preset keys that are not scene transforms contribute nothing. */
  lemma {:induction false} MatchesIgnoresForeignKeys(transforms: seq<string>, keys: set<string>, extra: set<string>)
    requires forall x :: x in extra ==> x !in transforms
    ensures Matches(transforms, keys + extra) == Matches(transforms, keys)
  {
    if transforms != [] {
      MatchesIgnoresForeignKeys(transforms[1..], keys, extra);
    }
  }

  /** With no preset keys, nothing matches. */
  lemma {:induction false} MatchesNoKeys(transforms: seq<string>)
    ensures Matches(transforms, {}) == []
  {
    if transforms != [] {
      MatchesNoKeys(transforms[1..]);
    }
  }

  /** `[loadedData[light]["Type"] for light in invalidLights]`, raising KeyError on a missing field. */
  function TypesOf(lights: seq<string>, data: map<string, Entry>): (r: Result<seq<string>, ListerError>)
    requires forall x :: x in lights ==> x in data
    ensures r.Ok? <==> forall i :: 0 <= i < |lights| ==> "Type" in data[lights[i]]
    ensures r.Ok? ==> |r.value| == |lights|
    ensures r.Ok? ==> forall i :: 0 <= i < |lights| ==> r.value[i] == data[lights[i]]["Type"]
    ensures r.Err? ==> r.error.NoType? && r.error.light in lights && "Type" !in data[r.error.light]
  {
    if lights == [] then Ok([])
    else if "Type" !in data[lights[0]] then Err(NoType(lights[0]))
    else
      match TypesOf(lights[1..], data)
      case Err(e) => Err(e)
      case Ok(rest) => Ok([data[lights[0]]["Type"]] + rest)
  }

  /** The body of `getLights` after the refresh: the four lists it returns. */
  function ComputeLights(shapes: seq<string>, transforms: seq<string>, data: map<string, Entry>): (r: Result<Lights, ListerError>)
    ensures r.Ok? <==> forall x :: x in transforms && x in data ==> "Type" in data[x]
    ensures r.Ok? ==> r.value.shapes == shapes
    ensures r.Ok? ==> r.value.display == DisplayNames(transforms)
    ensures r.Ok? ==> r.value.invalid == Matches(transforms, data.Keys)
    ensures r.Ok? ==> |r.value.invalidTypes| == |r.value.invalid|
    ensures r.Ok? ==> forall i :: 0 <= i < |r.value.invalid| ==>
                        r.value.invalidTypes[i] == data[r.value.invalid[i]]["Type"]
    ensures r.Err? ==> r.error.NoType? && r.error.light in transforms && r.error.light in data
                       && "Type" !in data[r.error.light]
  {
    var invalid := Matches(transforms, data.Keys);
    MatchesMembership(transforms, data.Keys);
    match TypesOf(invalid, data)
    case Err(e) => Err(e)
    case Ok(types) => Ok(Lights(DisplayNames(transforms), shapes, invalid, types))
  }

  /** With the empty preset a fresh lister starts with, no light is invalid. */
  lemma EmptyPresetNoInvalid(shapes: seq<string>, transforms: seq<string>)
    ensures ComputeLights(shapes, transforms, map[]).Ok?
    ensures ComputeLights(shapes, transforms, map[]).value.invalid == []
    ensures ComputeLights(shapes, transforms, map[]).value.invalidTypes == []
  {
    var empty: map<string, Entry> := map[];
    assert empty.Keys == {};
    MatchesNoKeys(transforms);
  }

  /**
   * The lister: the light shapes and their transforms from the last refresh,
   * and the preset loaded for comparison.
   */
  class LightLister {
    var lightShapes: seq<string>
    var lightTransforms: seq<string>
    var loadedData: map<string, Entry>

    /** `__init__`: query the scene and start with an empty preset. */
    constructor (q: SceneQuery)
      requires forall i :: 0 <= i < |q.shapes| ==> HasParent(q, q.shapes[i])
      ensures lightShapes == q.shapes
      ensures |lightTransforms| == |lightShapes|
      ensures forall i :: 0 <= i < |q.shapes| ==>
                HasParent(q, q.shapes[i]) && lightTransforms[i] == q.parents[q.shapes[i]][0]
      ensures loadedData == map[]
    {
      lightShapes := q.shapes;
      lightTransforms := FirstParents(q).value;
      loadedData := map[];
    }

    /**
     * `_update`: re-query the scene. The shapes are assigned before the
     * transforms are computed, so when a shape has no parent the shapes are
     * new and the transforms are those of the previous refresh.
     */
    method Update(q: SceneQuery) returns (r: Result<(), ListerError>)
      modifies this
      ensures lightShapes == q.shapes && loadedData == old(loadedData)
      ensures r.Ok? <==> FirstParents(q).Ok?
      ensures r.Ok? ==> lightTransforms == FirstParents(q).value
      ensures r.Err? ==> lightTransforms == old(lightTransforms) && r == Err(FirstParents(q).error)
    {
      lightShapes := q.shapes;
      var parents := FirstParents(q);
      match parents {
        case Err(e) =>
          r := Err(e);
        case Ok(ts) =>
          lightTransforms := ts;
          r := Ok(());
      }
    }

    /** `getLights`: refresh, then compute the rows from the scene and the preset. */
    method GetLights(q: SceneQuery) returns (r: Result<Lights, ListerError>)
      modifies this
      ensures lightShapes == q.shapes && loadedData == old(loadedData)
      ensures FirstParents(q).Err? ==> r == Err(FirstParents(q).error) && lightTransforms == old(lightTransforms)
      ensures FirstParents(q).Ok? ==> lightTransforms == FirstParents(q).value
      ensures FirstParents(q).Ok? ==> r == ComputeLights(lightShapes, lightTransforms, loadedData)
      ensures r.Ok? ==> r.value.shapes == q.shapes && |r.value.display| == |q.shapes|
    {
      var updated := Update(q);
      if updated.Err? {
        r := Err(updated.error);
        return;
      }
      r := ComputeLights(lightShapes, lightTransforms, loadedData);
    }
  }
}
