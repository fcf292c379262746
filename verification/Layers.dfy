/** Layering configuration (`hyperset/config/merge.py`): mappings merge key by key, anything else
    replaces wholesale, and an explicit null takes a key away. */
module Layers {
  import opened Prelude

  datatype Value =
    | Null
    | Text(text: string)
    | Flag(flag: bool)
    | Number(number: int)
    | Secret(reference: string, plain: string)
    | List(items: seq<Value>)
    | Mapping(entries: map<string, Value>)

  /** The keys a merge of two mappings has. */
  function MergedKeys(base: map<string, Value>, overlay: map<string, Value>): set<string> {
    set k <- base.Keys + overlay.Keys | k in overlay ==> !overlay[k].Null?
  }

  /** `overlay` on top of `base`; `deep_merge` when both are mappings. */
  function Layer(base: Value, overlay: Value): Value
    decreases overlay
  {
    if base.Mapping? && overlay.Mapping? then
      Mapping(map k | k in MergedKeys(base.entries, overlay.entries) ::
        if k !in overlay.entries then base.entries[k]
        else if k !in base.entries then overlay.entries[k]
        else Layer(base.entries[k], overlay.entries[k]))
    else overlay
  }

  /** `deep_merge`: a copy of the base, with the overlay's keys popped from or assigned in it. */
  method DeepMerge(base: map<string, Value>, overlay: Value) returns (result: map<string, Value>)
    requires overlay.Mapping?
    ensures Mapping(result) == Layer(Mapping(base), overlay)
    decreases overlay
  {
    result := base;
    ghost var merged := Layer(Mapping(base), overlay).entries;
    var todo := overlay.entries.Keys;
    while todo != {}
      invariant todo <= overlay.entries.Keys
      invariant forall k :: k in todo ==> (k in result <==> k in base) && (k in base ==> result[k] == base[k])
      invariant forall k :: k !in todo ==> (k in result <==> k in merged) && (k in merged ==> result[k] == merged[k])
      decreases todo
    {
      var key :| key in todo;
      todo := todo - {key};
      var value := overlay.entries[key];
      if value.Null? {
        result := result - {key};
      } else if value.Mapping? && key in result && result[key].Mapping? {
        var inner := DeepMerge(result[key].entries, value);
        assert merged[key] == Layer(base[key], value) == Mapping(inner);
        result := result[key := Mapping(inner)];
      } else {
        assert key in base ==> Layer(base[key], value) == value;
        assert key in MergedKeys(base, overlay.entries) && merged[key] == value;
        result := result[key := value];
      }
    }
  }

  // ---------------------------------------------------------------- what layering keeps

  /** Without the null-valued keys of mappings, at any depth of mappings. */
  function WithoutNulls(v: Value): Value {
    if v.Mapping? then Mapping(map k | k in v.entries && !v.entries[k].Null? :: WithoutNulls(v.entries[k]))
    else v
  }

  lemma {:induction false} LayerOnItself(v: Value)
    ensures Layer(v, v) == WithoutNulls(v)
    decreases v
  {
    if v.Mapping? {
      forall k | k in v.entries
        ensures Layer(v.entries[k], v.entries[k]) == WithoutNulls(v.entries[k])
      {
        LayerOnItself(v.entries[k]);
      }
    }
  }

  lemma {:induction false} PrunedTwice(v: Value)
    ensures WithoutNulls(WithoutNulls(v)) == WithoutNulls(v)
    decreases v
  {
    if v.Mapping? {
      forall k | k in v.entries
        ensures WithoutNulls(WithoutNulls(v.entries[k])) == WithoutNulls(v.entries[k])
      {
        PrunedTwice(v.entries[k]);
      }
    }
  }

  /** An overlay applied twice is the overlay applied once, up to null-valued keys. */
  lemma {:induction false} LayerTwiceUpToNulls(base: Value, overlay: Value)
    ensures WithoutNulls(Layer(Layer(base, overlay), overlay)) == WithoutNulls(Layer(base, overlay))
    decreases overlay
  {
    if base.Mapping? && overlay.Mapping? {
      var once := Layer(base, overlay);
      forall k | k in once.entries && k in overlay.entries
        ensures WithoutNulls(Layer(once.entries[k], overlay.entries[k])) == WithoutNulls(once.entries[k])
      {
        if k in base.entries {
          LayerTwiceUpToNulls(base.entries[k], overlay.entries[k]);
        } else {
          LayerOnItself(overlay.entries[k]);
          PrunedTwice(overlay.entries[k]);
        }
      }
    } else {
      LayerOnItself(overlay);
      PrunedTwice(overlay);
    }
  }

  /** No null waits inside a mapping of the overlay that lands where the base has no mapping. */
  ghost predicate Settles(base: Value, overlay: Value)
    decreases overlay
  {
    if base.Mapping? && overlay.Mapping? then
      forall k | k in overlay.entries && !overlay.entries[k].Null? ::
        if k in base.entries then Settles(base.entries[k], overlay.entries[k]) else WithoutNulls(overlay.entries[k]) == overlay.entries[k]
    else WithoutNulls(overlay) == overlay
  }

  /** Applying an overlay again changes nothing exactly when no null lands inside a mapping that
      replaces: there the first pass copies the null in, and the second takes it out. */
  lemma {:induction false} LayerTwiceIff(base: Value, overlay: Value)
    ensures Layer(Layer(base, overlay), overlay) == Layer(base, overlay) <==> Settles(base, overlay)
    decreases overlay
  {
    if base.Mapping? && overlay.Mapping? {
      var once := Layer(base, overlay);
      var twice := Layer(once, overlay);
      assert twice.entries.Keys == once.entries.Keys;
      assert twice == once <==> forall k | k in once.entries :: twice.entries[k] == once.entries[k];
      forall k | k in overlay.entries && !overlay.entries[k].Null?
        ensures k in once.entries
        ensures twice.entries[k] == once.entries[k]
           <==> if k in base.entries then Settles(base.entries[k], overlay.entries[k]) else WithoutNulls(overlay.entries[k]) == overlay.entries[k]
      {
        if k in base.entries {
          LayerTwiceIff(base.entries[k], overlay.entries[k]);
        } else {
          LayerOnItself(overlay.entries[k]);
        }
      }
    } else {
      LayerOnItself(overlay);
    }
  }

  // ---------------------------------------------------------------- paths

  function Get(v: Value, path: seq<string>): Option<Value>
    decreases |path|
  {
    if path == [] then Some(v)
    else if v.Mapping? && path[0] in v.entries then Get(v.entries[path[0]], path[1..])
    else None
  }

  /** The overlay has nothing on the way to the path but mappings, and then no key. */
  predicate LeavesAlone(overlay: Value, path: seq<string>)
    decreases |path|
  {
    && path != [] && overlay.Mapping?
    && (path[0] in overlay.entries ==> LeavesAlone(overlay.entries[path[0]], path[1..]))
  }

  /** A path the overlay does not mention has the value, or the absence, that the base has. */
  lemma {:induction false} UnmentionedPathKeepsItsValue(base: Value, overlay: Value, path: seq<string>)
    requires base.Mapping? && LeavesAlone(overlay, path)
    ensures Get(Layer(base, overlay), path) == Get(base, path)
    decreases |path|
  {
    var key, rest := path[0], path[1..];
    if key in overlay.entries {
      if key in base.entries && base.entries[key].Mapping? {
        UnmentionedPathKeepsItsValue(base.entries[key], overlay.entries[key], rest);
      } else {
        NothingAlongUnmentionedPath(overlay.entries[key], rest);
        if key in base.entries {
          assert Layer(base.entries[key], overlay.entries[key]) == overlay.entries[key];
        }
      }
    }
  }

  lemma {:induction false} NothingAlongUnmentionedPath(overlay: Value, path: seq<string>)
    requires LeavesAlone(overlay, path)
    ensures Get(overlay, path) == None
    decreases |path|
  {
    if path[0] in overlay.entries {
      NothingAlongUnmentionedPath(overlay.entries[path[0]], path[1..]);
    }
  }

  /** A scalar or a list that the overlay holds at a path is what the result holds there, whole. */
  lemma {:induction false} OverlayReplaces(base: Value, overlay: Value, path: seq<string>)
    requires base.Mapping? && path != [] && Get(overlay, path).Some?
    requires !Get(overlay, path).value.Mapping? && !Get(overlay, path).value.Null?
    ensures Get(Layer(base, overlay), path) == Get(overlay, path)
    decreases |path|
  {
    var key, rest := path[0], path[1..];
    if rest != [] && key in base.entries && base.entries[key].Mapping? {
      OverlayReplaces(base.entries[key], overlay.entries[key], rest);
    } else {
      if rest == [] {
        assert Get(overlay, path).value == overlay.entries[key];
      }
      assert key in MergedKeys(base.entries, overlay.entries);
      assert Layer(base, overlay).entries[key] == overlay.entries[key];
    }
  }

  /** An explicit null takes the key away exactly when the base holds a mapping where the key would
      be; otherwise the null itself is copied in and the key stays. */
  lemma {:induction false} NullUnsetsIff(base: Value, overlay: Value, path: seq<string>)
    requires base.Mapping? && path != [] && Get(overlay, path) == Some(Null)
    ensures Get(Layer(base, overlay), path) == None || Get(Layer(base, overlay), path) == Some(Null)
    ensures Get(Layer(base, overlay), path) == None
       <==> Get(base, path[..|path| - 1]).Some? && Get(base, path[..|path| - 1]).value.Mapping?
    decreases |path|
  {
    var key, rest := path[0], path[1..];
    if rest == [] {
      assert path[..0] == [];
      assert overlay.entries[key] == Null;
    } else {
      assert path[..|path| - 1][0] == key && path[..|path| - 1][1..] == rest[..|rest| - 1];
      assert !overlay.entries[key].Null?;
      if key in base.entries && base.entries[key].Mapping? {
        NullUnsetsIff(base.entries[key], overlay.entries[key], rest);
      } else {
        assert Layer(base, overlay).entries[key] == overlay.entries[key];
      }
    }
  }

  /** Layers apply strictly in order: a later scalar or list wins over an earlier one, whatever the
      base. */
  lemma LaterLayerWins(base: Value, first: Value, second: Value, path: seq<string>)
    requires base.Mapping? && first.Mapping? && path != [] && Get(second, path).Some?
    requires !Get(second, path).value.Mapping? && !Get(second, path).value.Null?
    ensures Get(Layer(Layer(base, first), second), path) == Get(second, path)
  {
    OverlayReplaces(Layer(base, first), second, path);
  }
}
