/** One walk resolves and redacts: what is redacted is decided by path alone, and nothing secret
    survives it. */
module SettingsLaws {
  import opened Prelude
  import opened Layers
  import opened Settings

  // ---------------------------------------------------------------- laws of the walk

  /** Walking twice is walking once with one function after the other. */
  lemma {:induction false} WalksCompose(f: Field, v: Value, first: (Value, Path) -> Value, second: (Value, Path) -> Value, path: Path)
    ensures MapSecrets(f, MapSecrets(f, v, first, path), second, path) == MapSecrets(f, v, (x, p) => second(first(x, p), p), path)
    decreases v
  {
    match f
    case ListOf(item) =>
      if v.List? {
        forall i | 0 <= i < |v.items|
          ensures MapSecrets(item, MapSecrets(item, v.items[i], first, path + [Index(i)]), second, path + [Index(i)])
               == MapSecrets(item, v.items[i], (x, p) => second(first(x, p), p), path + [Index(i)])
        {
          WalksCompose(item, v.items[i], first, second, path + [Index(i)]);
        }
      }
    case Section(fields, _) =>
      if v.Mapping? {
        forall k | k in v.entries && k in fields
          ensures MapSecrets(fields[k], MapSecrets(fields[k], v.entries[k], first, path + [Key(k)]), second, path + [Key(k)])
               == MapSecrets(fields[k], v.entries[k], (x, p) => second(first(x, p), p), path + [Key(k)])
        {
          WalksCompose(fields[k], v.entries[k], first, second, path + [Key(k)]);
        }
      }
    case OpenMap(value) =>
      if v.Mapping? {
        forall k | k in v.entries
          ensures MapSecrets(value, MapSecrets(value, v.entries[k], first, path + [Key(k)]), second, path + [Key(k)])
               == MapSecrets(value, v.entries[k], (x, p) => second(first(x, p), p), path + [Key(k)])
        {
          WalksCompose(value, v.entries[k], first, second, path + [Key(k)]);
        }
      }
    case _ =>
  }

  /** Functions that agree on what they are handed walk alike. */
  lemma {:induction false} WalksAgree(f: Field, v: Value, first: (Value, Path) -> Value, second: (Value, Path) -> Value, path: Path)
    requires forall x: Value, p: Path :: first(x, p) == second(x, p)
    ensures MapSecrets(f, v, first, path) == MapSecrets(f, v, second, path)
    decreases v
  {
    match f
    case ListOf(item) =>
      if v.List? {
        forall i | 0 <= i < |v.items|
          ensures MapSecrets(item, v.items[i], first, path + [Index(i)]) == MapSecrets(item, v.items[i], second, path + [Index(i)])
        {
          WalksAgree(item, v.items[i], first, second, path + [Index(i)]);
        }
      }
    case Section(fields, _) =>
      if v.Mapping? {
        forall k | k in v.entries && k in fields
          ensures MapSecrets(fields[k], v.entries[k], first, path + [Key(k)]) == MapSecrets(fields[k], v.entries[k], second, path + [Key(k)])
        {
          WalksAgree(fields[k], v.entries[k], first, second, path + [Key(k)]);
        }
      }
    case OpenMap(value) =>
      if v.Mapping? {
        forall k | k in v.entries
          ensures MapSecrets(value, v.entries[k], first, path + [Key(k)]) == MapSecrets(value, v.entries[k], second, path + [Key(k)])
        {
          WalksAgree(value, v.entries[k], first, second, path + [Key(k)]);
        }
      }
    case _ =>
  }

  /** Resolved settings redact to what unresolved ones do. */
  lemma RedactionSeesThroughResolution(f: Field, v: Value, store: Store)
    requires Resolved(f, v, store).Some?
    ensures Redacted(f, Resolved(f, v, store).value) == Redacted(f, v)
  {
    var resolve := (x: Value, p: Path) => ResolvedTo(store, x);
    var redact := (x: Value, p: Path) => REDACTED;
    WalksCompose(f, v, resolve, redact, []);
    WalksAgree(f, v, (x, p) => redact(resolve(x, p), p), redact, []);
  }

  // ---------------------------------------------------------------- what redaction shows

  /** The settings agree everywhere but at secret-typed paths. */
  ghost predicate AgreeOffSecrets(f: Field, v: Value, w: Value)
    decreases v
  {
    match f
    case Ref => true
    case ListOf(item) =>
      if v.List? && w.List? then
        |v.items| == |w.items| && forall i :: 0 <= i < |v.items| ==> AgreeOffSecrets(item, v.items[i], w.items[i])
      else v == w
    case Section(fields, _) =>
      if v.Mapping? && w.Mapping? then
        && v.entries.Keys == w.entries.Keys
        && forall k | k in v.entries :: if k in fields then AgreeOffSecrets(fields[k], v.entries[k], w.entries[k]) else v.entries[k] == w.entries[k]
      else v == w
    case OpenMap(value) =>
      if v.Mapping? && w.Mapping? then
        v.entries.Keys == w.entries.Keys && forall k | k in v.entries :: AgreeOffSecrets(value, v.entries[k], w.entries[k])
      else v == w
    case _ => v == w
  }

  const REDACT := (x: Value, p: Path) => REDACTED

  /** Two settings redact alike exactly when they agree off the secret-typed paths: redaction shows
      everything else, and nothing of what it hides. */
  lemma {:induction false} RedactAlikeIff(f: Field, v: Value, w: Value, path: Path)
    ensures MapSecrets(f, v, REDACT, path) == MapSecrets(f, w, REDACT, path) <==> AgreeOffSecrets(f, v, w)
    decreases v
  {
    match f
    case ListOf(item) =>
      if v.List? && w.List? && |v.items| == |w.items| {
        ItemsRedactAlikeIff(item, v.items, w.items, v, path);
      } else if v.List? && w.List? {
        assert |MapSecrets(f, v, REDACT, path).items| == |v.items| && |MapSecrets(f, w, REDACT, path).items| == |w.items|;
      }
    case Section(fields, _) =>
      if v.Mapping? && w.Mapping? && v.entries.Keys == w.entries.Keys {
        var left, right := MapSecrets(f, v, REDACT, path).entries, MapSecrets(f, w, REDACT, path).entries;
        assert left.Keys == v.entries.Keys && right.Keys == w.entries.Keys;
        forall k | k in v.entries
          ensures left[k] == right[k] <==> if k in fields then AgreeOffSecrets(fields[k], v.entries[k], w.entries[k]) else v.entries[k] == w.entries[k]
        {
          if k in fields {
            RedactAlikeIff(fields[k], v.entries[k], w.entries[k], path + [Key(k)]);
          }
        }
      } else if v.Mapping? && w.Mapping? {
        DifferentKeys(f, v, w, path);
      }
    case OpenMap(value) =>
      if v.Mapping? && w.Mapping? && v.entries.Keys == w.entries.Keys {
        var left, right := MapSecrets(f, v, REDACT, path).entries, MapSecrets(f, w, REDACT, path).entries;
        assert left.Keys == v.entries.Keys && right.Keys == w.entries.Keys;
        forall k | k in v.entries
          ensures left[k] == right[k] <==> AgreeOffSecrets(value, v.entries[k], w.entries[k])
        {
          RedactAlikeIff(value, v.entries[k], w.entries[k], path + [Key(k)]);
        }
      } else if v.Mapping? && w.Mapping? {
        DifferentKeys(f, v, w, path);
      }
    case _ =>
  }

  lemma DifferentKeys(f: Field, v: Value, w: Value, path: Path)
    requires (f.Section? || f.OpenMap?) && v.Mapping? && w.Mapping? && v.entries.Keys != w.entries.Keys
    ensures MapSecrets(f, v, REDACT, path) != MapSecrets(f, w, REDACT, path)
  {
    assert MapSecrets(f, v, REDACT, path).entries.Keys == v.entries.Keys;
    assert MapSecrets(f, w, REDACT, path).entries.Keys == w.entries.Keys;
  }

  lemma ItemsRedactAlikeIff(item: Field, items: seq<Value>, others: seq<Value>, whole: Value, path: Path)
    requires whole == List(items) && |items| == |others|
    ensures MapSecrets(ListOf(item), List(items), REDACT, path) == MapSecrets(ListOf(item), List(others), REDACT, path)
       <==> forall i :: 0 <= i < |items| ==> AgreeOffSecrets(item, items[i], others[i])
    decreases whole, 0
  {
    var left, right := MapSecrets(ListOf(item), List(items), REDACT, path).items, MapSecrets(ListOf(item), List(others), REDACT, path).items;
    forall i | 0 <= i < |items|
      ensures left[i] == right[i] <==> AgreeOffSecrets(item, items[i], others[i])
    {
      RedactAlikeIff(item, items[i], others[i], path + [Index(i)]);
    }
    assert left == right <==> forall i :: 0 <= i < |items| ==> left[i] == right[i];
  }

  /** No resolved secret anywhere in the value. */
  ghost predicate HoldsNoSecret(v: Value)
    decreases v
  {
    match v
    case Secret(_, _) => false
    case List(items) => forall i :: 0 <= i < |items| ==> HoldsNoSecret(items[i])
    case Mapping(entries) => forall k | k in entries :: HoldsNoSecret(entries[k])
    case _ => true
  }

  lemma {:induction false} RedactingAddsNoSecret(f: Field, v: Value, path: Path)
    requires HoldsNoSecret(v)
    ensures HoldsNoSecret(MapSecrets(f, v, REDACT, path))
    decreases v
  {
    match f
    case ListOf(item) =>
      if v.List? {
        forall i | 0 <= i < |v.items|
          ensures HoldsNoSecret(MapSecrets(item, v.items[i], REDACT, path + [Index(i)]))
        {
          RedactingAddsNoSecret(item, v.items[i], path + [Index(i)]);
        }
      }
    case Section(fields, _) =>
      if v.Mapping? {
        forall k | k in v.entries && k in fields
          ensures HoldsNoSecret(MapSecrets(fields[k], v.entries[k], REDACT, path + [Key(k)]))
        {
          RedactingAddsNoSecret(fields[k], v.entries[k], path + [Key(k)]);
        }
      }
    case OpenMap(value) =>
      if v.Mapping? {
        forall k | k in v.entries
          ensures HoldsNoSecret(MapSecrets(value, v.entries[k], REDACT, path + [Key(k)]))
        {
          RedactingAddsNoSecret(value, v.entries[k], path + [Key(k)]);
        }
      }
    case _ =>
  }

  /** Whatever the references resolve to, the redacted settings hold none of it. */
  lemma NoResolvedSecretSurvivesRedaction(f: Field, v: Value, store: Store)
    requires HoldsNoSecret(v) && Resolved(f, v, store).Some?
    ensures HoldsNoSecret(Redacted(f, Resolved(f, v, store).value))
  {
    RedactionSeesThroughResolution(f, v, store);
    RedactingAddsNoSecret(f, v, []);
    WalksAgree(f, v, (x: Value, p: Path) => REDACTED, REDACT, []);
  }

  // ---------------------------------------------------------------- what validation ensures

  /** Every leaf the walk hands out of accepted settings is a well-formed reference: a secret is
      never half written out, and the resolver's own shape check never fires. */
  lemma {:induction false} ValidSecretsAreReferences(f: Field, v: Value)
    requires Valid(f, v)
    ensures AllSecrets(f, Coerced(f, v), IsReference)
    decreases v
  {
    match f
    case ListOf(item) =>
      forall i | 0 <= i < |v.items|
        ensures AllSecrets(item, Coerced(item, v.items[i]), IsReference)
      {
        ValidSecretsAreReferences(item, v.items[i]);
      }
    case Section(fields, _) =>
      forall k | k in v.entries && !v.entries[k].Null?
        ensures AllSecrets(fields[k], Coerced(fields[k], v.entries[k]), IsReference)
      {
        ValidSecretsAreReferences(fields[k], v.entries[k]);
      }
    case OpenMap(value) =>
      forall k | k in v.entries
        ensures AllSecrets(value, Coerced(value, v.entries[k]), IsReference)
      {
        ValidSecretsAreReferences(value, v.entries[k]);
      }
    case _ =>
  }

  /** No opaque value and no open mapping: every null in it is an absent key. */
  ghost predicate IsClosed(f: Field)
    decreases f
  {
    match f
    case Raw => false
    case OpenMap(_) => false
    case Section(fields, _) => forall k | k in fields :: IsClosed(fields[k])
    case _ => true
  }

  /** In a closed schema a null-valued key and an absent one make the same settings. */
  lemma {:induction false} NullsAreAbsent(f: Field, v: Value, w: Value)
    requires IsClosed(f) && Valid(f, v) && Valid(f, w) && WithoutNulls(v) == WithoutNulls(w)
    ensures Coerced(f, v) == Coerced(f, w)
    decreases v
  {
    if f.Section? {
      forall k: string
        ensures Present(v, k) <==> Present(w, k)
        ensures Present(v, k) ==> WithoutNulls(v.entries[k]) == WithoutNulls(w.entries[k])
      {
        SamePresence(v, w, k);
      }
      forall k | Present(v, k)
        ensures Coerced(f.fields[k], v.entries[k]) == Coerced(f.fields[k], w.entries[k])
      {
        NullsAreAbsent(f.fields[k], v.entries[k], w.entries[k]);
      }
      SameSection(f, v, w);
    } else {
      assert WithoutNulls(v) == v && WithoutNulls(w) == w;
    }
  }

  lemma SamePresence(v: Value, w: Value, k: string)
    requires v.Mapping? && w.Mapping? && WithoutNulls(v) == WithoutNulls(w)
    ensures Present(v, k) <==> Present(w, k)
    ensures Present(v, k) ==> WithoutNulls(v.entries[k]) == WithoutNulls(w.entries[k])
  {
    var left, right := WithoutNulls(v).entries, WithoutNulls(w).entries;
    assert Present(v, k) <==> k in left;
    assert Present(w, k) <==> k in right;
  }

  lemma SameSection(f: Field, v: Value, w: Value)
    requires f.Section? && Valid(f, v) && Valid(f, w)
    requires forall k: string :: Present(v, k) <==> Present(w, k)
    requires forall k | k in Coerced(f, v).entries && k in Coerced(f, w).entries :: Coerced(f, v).entries[k] == Coerced(f, w).entries[k]
    ensures Coerced(f, v) == Coerced(f, w)
  {
    var left, right := Coerced(f, v).entries, Coerced(f, w).entries;
    assert forall k :: k in left <==> Present(v, k);
    assert forall k :: k in right <==> Present(w, k);
    assert left == right;
  }

  /** Every key of the one mapping is a key of the other, at every depth of mappings. */
  ghost predicate KeysWithin(w: Value, v: Value)
    decreases w
  {
    w.Mapping? && v.Mapping? ==>
      w.entries.Keys <= v.entries.Keys && forall k | k in w.entries :: KeysWithin(w.entries[k], v.entries[k])
  }

  lemma {:induction false} KeysWithinItself(v: Value)
    ensures KeysWithin(v, v)
    decreases v
  {
    if v.Mapping? {
      forall k | k in v.entries
        ensures KeysWithin(v.entries[k], v.entries[k])
      {
        KeysWithinItself(v.entries[k]);
      }
    }
  }

  lemma {:induction false} PrunedIsWithin(v: Value)
    ensures KeysWithin(WithoutNulls(v), v)
    decreases v
  {
    if v.Mapping? {
      forall k | k in v.entries
        ensures KeysWithin(WithoutNulls(v.entries[k]), v.entries[k])
      {
        PrunedIsWithin(v.entries[k]);
      }
    }
  }

  /** Applying an overlay again adds no key anywhere. */
  lemma {:induction false} LayerAgainAddsNoKey(base: Value, overlay: Value)
    ensures KeysWithin(Layer(Layer(base, overlay), overlay), Layer(base, overlay))
    decreases overlay
  {
    if base.Mapping? && overlay.Mapping? {
      var once := Layer(base, overlay);
      var twice := Layer(once, overlay);
      forall k | k in twice.entries
        ensures k in once.entries && KeysWithin(twice.entries[k], once.entries[k])
      {
        if k !in overlay.entries {
          KeysWithinItself(once.entries[k]);
        } else if k in base.entries {
          LayerAgainAddsNoKey(base.entries[k], overlay.entries[k]);
        } else {
          LayerOnItself(overlay.entries[k]);
          PrunedIsWithin(overlay.entries[k]);
        }
      }
    } else {
      LayerOnItself(overlay);
      PrunedIsWithin(overlay);
    }
  }

  /** In a closed schema, dropping null-valued keys of accepted settings leaves them accepted. */
  lemma {:induction false} FewerNullsStayValid(f: Field, v: Value, w: Value)
    requires IsClosed(f) && Valid(f, v) && WithoutNulls(v) == WithoutNulls(w) && KeysWithin(w, v)
    ensures Valid(f, w)
    decreases v
  {
    if f.Section? {
      forall k: string
        ensures Present(v, k) <==> Present(w, k)
        ensures Present(v, k) ==> WithoutNulls(v.entries[k]) == WithoutNulls(w.entries[k])
      {
        SamePresence(v, w, k);
      }
      forall k | k in w.entries && !w.entries[k].Null?
        ensures Valid(f.fields[k], w.entries[k])
      {
        assert Present(w, k) && Present(v, k);
        FewerNullsStayValid(f.fields[k], v.entries[k], w.entries[k]);
      }
    } else {
      assert WithoutNulls(v) == v && WithoutNulls(w) == w;
    }
  }

  /** So settings that validate still validate when an overlay is applied again, and are the same. */
  lemma OverlayingAgainValidatesAlike(f: Field, base: Value, overlay: Value)
    requires IsClosed(f) && Valid(f, Layer(base, overlay))
    ensures Valid(f, Layer(Layer(base, overlay), overlay))
    ensures Coerced(f, Layer(Layer(base, overlay), overlay)) == Coerced(f, Layer(base, overlay))
  {
    var once, twice := Layer(base, overlay), Layer(Layer(base, overlay), overlay);
    LayerTwiceUpToNulls(base, overlay);
    LayerAgainAddsNoKey(base, overlay);
    FewerNullsStayValid(f, once, twice);
    NullsAreAbsent(f, twice, once);
  }
}
