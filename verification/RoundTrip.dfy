/** Loading what was saved: which schemas keep their fields apart inside one flat hash, and
    which values then come back unchanged. */
module RoundTrip {
  import opened Wrappers
  import opened Text
  import opened Decimal
  import opened Codec

  // ---------------------------------------------------------------- well-formed schemas

  /** The keys a field can read or write: one key, or every key under a prefix. */
  datatype Pattern = Exact(key: string) | Under(prefix: string)

  predicate Owns(p: Pattern, k: string) {
    match p
    case Exact(key) => k == key
    case Under(prefix) => prefix <= k
  }

  predicate Apart(p: Pattern, q: Pattern) {
    match (p, q)
    case (Exact(a), Exact(b)) => a != b
    case (Exact(a), Under(b)) => !(b <= a)
    case (Under(a), Exact(b)) => !(a <= b)
    case (Under(a), Under(b)) => !(a <= b) && !(b <= a)
  }

  /** The syntactic test is exact: two patterns are apart when no key belongs to both. */
  lemma ApartExactlyWhenDisjoint(p: Pattern, q: Pattern)
    ensures Apart(p, q) <==> forall k :: !(Owns(p, k) && Owns(q, k))
  {
    var witnessP := if p.Exact? then p.key else p.prefix;
    var witnessQ := if q.Exact? then q.key else q.prefix;
    assert Owns(p, witnessP) && Owns(q, witnessQ);
    if p.Under? && q.Under? {
      forall k | Owns(p, k) && Owns(q, k) ensures !Apart(p, q) {
        assert p.prefix == k[..|p.prefix|] && q.prefix == k[..|q.prefix|];
      }
    }
  }

  function FieldPatterns(f: Field, prefixes: seq<string>): seq<Pattern>
    decreases f
  {
    match f
    case Untouched => []
    case ExpandOther(_) => []
    case Leaf(name, _, _) => [Exact(Key(prefixes, name))]
    case ExpandMap(name, _) => [Under(MapPrefix(prefixes + [name]))]
    case ExpandStruct(name, _, _, sub) => Patterns(sub, prefixes + [name])
  }

  function Patterns(fs: seq<Field>, prefixes: seq<string>): seq<Pattern>
    decreases fs
  {
    if fs == [] then []
    else Patterns(fs[..|fs| - 1], prefixes) + FieldPatterns(fs[|fs| - 1], prefixes)
  }

  predicate AllApart(ps: seq<Pattern>, qs: seq<Pattern>) {
    forall i, j :: 0 <= i < |ps| && 0 <= j < |qs| ==> Apart(ps[i], qs[j])
  }

  /** Fields have distinct key paths, no key falls under a sibling map's prefix, and no expanded
      map has an empty path. */
  predicate WellFormed(fs: seq<Field>, prefixes: seq<string>)
    decreases fs
  {
    fs == [] || (
      var n := |fs| - 1;
      && WellFormed(fs[..n], prefixes)
      && WellFormedField(fs[n], prefixes)
      && AllApart(Patterns(fs[..n], prefixes), FieldPatterns(fs[n], prefixes)))
  }

  predicate WellFormedField(f: Field, prefixes: seq<string>)
    decreases f
  {
    match f
    case ExpandMap(name, _) => Join(prefixes + [name], "_") != ""
    case ExpandStruct(name, _, _, sub) => WellFormed(sub, prefixes + [name])
    case _ => true
  }

  lemma {:induction false} WellFormedSnoc(fs: seq<Field>, f: Field, prefixes: seq<string>)
    ensures Patterns(fs + [f], prefixes) == Patterns(fs, prefixes) + FieldPatterns(f, prefixes)
    ensures WellFormed(fs + [f], prefixes) <==>
      && WellFormed(fs, prefixes)
      && WellFormedField(f, prefixes)
      && AllApart(Patterns(fs, prefixes), FieldPatterns(f, prefixes))
  {
    assert (fs + [f])[..|fs|] == fs;
  }

  ghost predicate PairwiseApart(fs: seq<Field>, prefixes: seq<string>) {
    forall i, j :: 0 <= i < j < |fs| ==> AllApart(FieldPatterns(fs[i], prefixes), FieldPatterns(fs[j], prefixes))
  }

  lemma {:induction false} PatternOfAField(fs: seq<Field>, prefixes: seq<string>, p: Pattern)
    requires p in Patterns(fs, prefixes)
    ensures exists i :: 0 <= i < |fs| && p in FieldPatterns(fs[i], prefixes)
    decreases |fs|
  {
    var n := |fs| - 1;
    if p in Patterns(fs[..n], prefixes) {
      PatternOfAField(fs[..n], prefixes, p);
      var i :| 0 <= i < n && p in FieldPatterns(fs[..n][i], prefixes);
      assert fs[i] == fs[..n][i];
    } else {
      assert p in FieldPatterns(fs[n], prefixes);
    }
  }

  /** Fields that are well formed, and apart two by two, make a well-formed schema. */
  lemma {:induction false} PairwiseIsWellFormed(fs: seq<Field>, prefixes: seq<string>)
    requires PairwiseApart(fs, prefixes)
    requires forall i :: 0 <= i < |fs| ==> WellFormedField(fs[i], prefixes)
    ensures WellFormed(fs, prefixes)
    decreases |fs|
  {
    if fs == [] {
    } else {
      var n := |fs| - 1;
      var ps, qs := Patterns(fs[..n], prefixes), FieldPatterns(fs[n], prefixes);
      assert forall i :: 0 <= i < n ==> fs[..n][i] == fs[i];
      PairwiseIsWellFormed(fs[..n], prefixes);
      forall a, b | 0 <= a < |ps| && 0 <= b < |qs| ensures Apart(ps[a], qs[b]) {
        PatternOfAField(fs[..n], prefixes, ps[a]);
        var i :| 0 <= i < n && ps[a] in FieldPatterns(fs[..n][i], prefixes);
        assert AllApart(FieldPatterns(fs[i], prefixes), qs);
      }
    }
  }

  ghost predicate Owned(ps: seq<Pattern>, k: string) {
    exists i :: 0 <= i < |ps| && Owns(ps[i], k)
  }

  lemma OwnedByOneSide(ps: seq<Pattern>, qs: seq<Pattern>, k: string)
    requires AllApart(ps, qs)
    ensures !(Owned(ps, k) && Owned(qs, k))
  {
    if Owned(ps, k) && Owned(qs, k) {
      var i :| 0 <= i < |ps| && Owns(ps[i], k);
      var j :| 0 <= j < |qs| && Owns(qs[j], k);
      ApartExactlyWhenDisjoint(ps[i], qs[j]);
      assert false;
    }
  }

  lemma OwnedConcat(ps: seq<Pattern>, qs: seq<Pattern>, k: string)
    ensures Owned(ps + qs, k) <==> Owned(ps, k) || Owned(qs, k)
  {
    if Owned(ps, k) {
      var i :| 0 <= i < |ps| && Owns(ps[i], k);
      assert Owns((ps + qs)[i], k);
    }
    if Owned(qs, k) {
      var j :| 0 <= j < |qs| && Owns(qs[j], k);
      assert Owns((ps + qs)[|ps| + j], k);
    }
  }

  // ---------------------------------------------------------------- saved keys

  lemma {:induction false} MapKey(prefixes: seq<string>, k: string)
    requires prefixes != [] && Join(prefixes, "_") != ""
    ensures Key(prefixes, k) == Qualified(MapPrefix(prefixes), k)
  {
    JoinSnoc(prefixes, k, "_");
  }

  /** A field only ever writes keys it owns. */
  lemma {:induction false} SavedKeysAreOwned(f: Field, v: Value, prefixes: seq<string>)
    requires Fits(f, v) && WellFormedField(f, prefixes)
    ensures var r := SaveField(f, v, prefixes);
      r.Success? ==> forall k :: k in r.value ==> Owned(FieldPatterns(f, prefixes), k)
    decreases f, 0
  {
    var ps := FieldPatterns(f, prefixes);
    var r := SaveField(f, v, prefixes);
    match f
    case Leaf(name, _, _) =>
      assert Owns(ps[0], Key(prefixes, name));
    case ExpandMap(name, _) =>
      if r.Success? {
        forall k | k in r.value ensures Owned(ps, k) {
          var k' :| k == Key(prefixes + [name], k');
          MapKey(prefixes + [name], k');
          assert Owns(ps[0], k);
        }
      }
    case ExpandStruct(name, _, _, sub) =>
      if v.Struct? {
        AllSavedKeysAreOwned(sub, v.fields, prefixes + [name]);
      }
    case _ =>
  }

  lemma {:induction false} AllSavedKeysAreOwned(fs: seq<Field>, vs: seq<Value>, prefixes: seq<string>)
    requires FitsAll(fs, vs) && WellFormed(fs, prefixes)
    ensures var r := SaveFields(fs, vs, prefixes);
      r.Success? ==> forall k :: k in r.value ==> Owned(Patterns(fs, prefixes), k)
    decreases fs, 1
  {
    if fs == [] {
    } else {
      var n := |fs| - 1;
      AllSavedKeysAreOwned(fs[..n], vs[..n], prefixes);
      SavedKeysAreOwned(fs[n], vs[n], prefixes);
      forall k ensures Owned(Patterns(fs, prefixes), k)
        <==> Owned(Patterns(fs[..n], prefixes), k) || Owned(FieldPatterns(fs[n], prefixes), k) {
        OwnedConcat(Patterns(fs[..n], prefixes), FieldPatterns(fs[n], prefixes), k);
      }
    }
  }

  // ---------------------------------------------------------------- saving field by field

  lemma {:induction false} SaveSnoc(fs: seq<Field>, vs: seq<Value>, f: Field, v: Value, prefixes: seq<string>, h: Hash,
                                    own: Hash)
    requires FitsAll(fs, vs) && Fits(f, v)
    requires SaveFields(fs, vs, prefixes) == Success(h) && SaveField(f, v, prefixes) == Success(own)
    ensures FitsAll(fs + [f], vs + [v]) && SaveFields(fs + [f], vs + [v], prefixes) == Success(h + own)
  {
    assert (fs + [f])[..|fs|] == fs && (vs + [v])[..|vs|] == vs;
  }

  lemma {:induction false} NothingSaved(prefixes: seq<string>)
    ensures SaveFields([], [], prefixes) == Success(map[])
  {
  }

  lemma {:induction false} OneFieldSaved(f: Field, v: Value, prefixes: seq<string>, h: Hash)
    requires Fits(f, v) && SaveField(f, v, prefixes) == Success(h)
    ensures FitsAll([f], [v]) && SaveFields([f], [v], prefixes) == Success(h)
  {
    var fs: seq<Field>, vs: seq<Value>, none: Hash := [], [], map[];
    NothingSaved(prefixes);
    SaveSnoc(fs, vs, f, v, prefixes, none, h);
    assert fs + [f] == [f] && vs + [v] == [v] && none + h == h;
  }

  /** What a field writes is in the hash of its record. */
  lemma {:induction false} SavedAt(fs: seq<Field>, vs: seq<Value>, prefixes: seq<string>, i: nat, k: string)
    requires FitsAll(fs, vs) && WellFormed(fs, prefixes) && SaveFields(fs, vs, prefixes).Success? && i < |fs|
    ensures SaveField(fs[i], vs[i], prefixes).Success?
    ensures k in SaveField(fs[i], vs[i], prefixes).value ==>
      && k in SaveFields(fs, vs, prefixes).value
      && SaveFields(fs, vs, prefixes).value[k] == SaveField(fs[i], vs[i], prefixes).value[k]
    decreases |fs|
  {
    var n := |fs| - 1;
    if i == n {
    } else {
      SavedAt(fs[..n], vs[..n], prefixes, i, k);
      LastKeepsEarlier(fs, vs, prefixes, k);
    }
  }

  lemma {:induction false} LastKeepsEarlier(fs: seq<Field>, vs: seq<Value>, prefixes: seq<string>, k: string)
    requires fs != [] && FitsAll(fs, vs) && WellFormed(fs, prefixes) && SaveFields(fs, vs, prefixes).Success?
    ensures var n := |fs| - 1;
      var earlier := SaveFields(fs[..n], vs[..n], prefixes);
      earlier.Success? && (k in earlier.value ==>
        k in SaveFields(fs, vs, prefixes).value && SaveFields(fs, vs, prefixes).value[k] == earlier.value[k])
  {
    var n := |fs| - 1;
    AllSavedKeysAreOwned(fs[..n], vs[..n], prefixes);
    SavedKeysAreOwned(fs[n], vs[n], prefixes);
    OwnedByOneSide(Patterns(fs[..n], prefixes), FieldPatterns(fs[n], prefixes), k);
  }

  // ---------------------------------------------------------------- saving over a stored hash

  /** A leaf that leaves no trace in the hash. */
  predicate Unsaved(name: string, omit: bool, v: Value) {
    name == "" || (omit && Printed(v) == "")
  }

  /** The value read back after `v` is saved over a hash that read as `before`. */
  ghost function Overlay(f: Field, v: Value, before: Value): (after: Value)
    requires Fits(f, v) && Fits(f, before)
    ensures Fits(f, after)
    decreases f
  {
    match f
    case Untouched => before
    case ExpandOther(_) => before
    case Leaf(name, omit, kind) =>
      if Unsaved(name, omit, v) || kind.KStruct? then before
      else if kind.KStrings? then Strs(Split(Join(v.ss, LIST_SEPARATOR), LIST_SEPARATOR))
      else v
    case ExpandMap(_, _) => MergedInto(before, Entries(v))
    case ExpandStruct(_, omit, _, sub) =>
      if v.NilPtr? || before.NilPtr? || (omit && v.fields == Zeros(sub)) then before
      else Struct(Overlays(sub, v.fields, before.fields))
  }

  ghost function Overlays(fs: seq<Field>, vs: seq<Value>, before: seq<Value>): (after: seq<Value>)
    requires FitsAll(fs, vs) && FitsAll(fs, before)
    ensures FitsAll(fs, after)
    decreases fs
  {
    if fs == [] then []
    else
      var n := |fs| - 1;
      Overlays(fs[..n], vs[..n], before[..n]) + [Overlay(fs[n], vs[n], before[n])]
  }

  lemma {:induction false} OverlaysAt(fs: seq<Field>, vs: seq<Value>, before: seq<Value>, i: nat)
    requires FitsAll(fs, vs) && FitsAll(fs, before) && i < |fs|
    ensures Overlays(fs, vs, before)[i] == Overlay(fs[i], vs[i], before[i])
    decreases |fs|
  {
    var n := |fs| - 1;
    if i == n {
    } else {
      OverlaysAt(fs[..n], vs[..n], before[..n], i);
    }
  }

  /** `h` and `h'` hold the same entries among the keys matched by `ps`. */
  ghost predicate Agree(h: Hash, h': Hash, ps: seq<Pattern>) {
    forall k :: Owned(ps, k) ==> (k in h <==> k in h') && (k in h ==> h[k] == h'[k])
  }

  lemma AgreeSplits(h: Hash, h': Hash, ps: seq<Pattern>, qs: seq<Pattern>)
    requires Agree(h, h', ps + qs)
    ensures Agree(h, h', ps) && Agree(h, h', qs)
  {
    forall k ensures Owned(ps, k) || Owned(qs, k) ==> Owned(ps + qs, k) {
      OwnedConcat(ps, qs, k);
    }
  }

  lemma SelectedAgrees(h: Hash, h': Hash, prefix: string)
    requires Agree(h, h', [Under(prefix)])
    ensures Selected(h, prefix) == Selected(h', prefix)
  {
    forall k ensures (k in Selected(h, prefix) <==> k in Selected(h', prefix))
      && (k in Selected(h, prefix) ==> Selected(h, prefix)[k] == Selected(h', prefix)[k]) {
      assert Owns([Under(prefix)][0], Qualified(prefix, k));
    }
  }

  /** Loading a field looks at no key but its own. */
  lemma {:induction false} LoadFieldReadsOwnKeys(f: Field, h: Hash, h': Hash, dst: Value, prefixes: seq<string>)
    requires Fits(f, dst) && Agree(h, h', FieldPatterns(f, prefixes))
    ensures LoadField(f, h, dst, prefixes) == LoadField(f, h', dst, prefixes)
    decreases f, 0
  {
    var ps := FieldPatterns(f, prefixes);
    match f
    case Leaf(name, _, _) =>
      assert Owns(ps[0], Key(prefixes, name));
    case ExpandMap(name, _) =>
      SelectedAgrees(h, h', MapPrefix(prefixes + [name]));
    case ExpandStruct(name, _, _, sub) =>
      if dst.Struct? {
        LoadReadsOwnKeys(sub, h, h', dst.fields, prefixes + [name]);
      }
    case _ =>
  }

  lemma {:induction false} LoadReadsOwnKeys(fs: seq<Field>, h: Hash, h': Hash, dst: seq<Value>, prefixes: seq<string>)
    requires FitsAll(fs, dst) && Agree(h, h', Patterns(fs, prefixes))
    ensures LoadFields(fs, h, dst, prefixes) == LoadFields(fs, h', dst, prefixes)
    decreases fs, 1
  {
    if fs == [] {
    } else {
      var n := |fs| - 1;
      AgreeSplits(h, h', Patterns(fs[..n], prefixes), FieldPatterns(fs[n], prefixes));
      LoadReadsOwnKeys(fs[..n], h, h', dst[..n], prefixes);
      LoadFieldReadsOwnKeys(fs[n], h, h', dst[n], prefixes);
    }
  }

  lemma LeafSurvives(kind: Kind, v: Value, dst: Value)
    requires FitsKind(kind, v)
    ensures LoadLeaf(kind, Printed(v), dst)
         == Success(if kind.KStruct? then dst
                    else if kind.KStrings? then Strs(Split(Join(v.ss, LIST_SEPARATOR), LIST_SEPARATOR)) else v)
  {
    match kind
    case KBool => ParseOfPrintBool(v.b);
    case KInt => ParseOfPrintInt(v.i);
    case KUint => ParseOfPrintUint(v.u);
    case _ =>
  }

  lemma {:induction false} EntriesMerge(m: map<string, string>, prefixes: seq<string>, h: Hash, k: string)
    requires prefixes != [] && Join(prefixes, "_") != ""
    ensures var prefix, h' := MapPrefix(prefixes), h + WithPrefix(prefixes, m);
      var m' := Selected(h, prefix) + m;
      (k in m' <==> Qualified(prefix, k) in h') && (k in m' ==> m'[k] == h'[Qualified(prefix, k)])
  {
    var key, e := Qualified(MapPrefix(prefixes), k), WithPrefix(prefixes, m);
    MapKey(prefixes, k);
    if key in e {
      var k' :| k' in m && key == Key(prefixes, k');
      KeyInjective(prefixes, k, k');
    }
  }

  /** Saving a map over a hash merges its entries into those already there. */
  lemma {:induction false} MapsMerge(m: map<string, string>, prefixes: seq<string>, h: Hash)
    requires prefixes != [] && Join(prefixes, "_") != ""
    ensures Selected(h + WithPrefix(prefixes, m), MapPrefix(prefixes)) == Selected(h, MapPrefix(prefixes)) + m
  {
    var prefix, h' := MapPrefix(prefixes), h + WithPrefix(prefixes, m);
    var m' := Selected(h, prefix) + m;
    forall k ensures (k in m' <==> Qualified(prefix, k) in h') && (k in m' ==> m'[k] == h'[Qualified(prefix, k)]) {
      EntriesMerge(m, prefixes, h, k);
    }
    SelectionUnique(h', prefix, m');
  }

  lemma MergedIntoTwice(dst: Value, m: map<string, string>, m': map<string, string>)
    ensures MergedInto(dst, m + m') == MergedInto(MergedInto(dst, m), m')
  {
    if m == map[] {
      assert m + m' == m';
    } else if m' == map[] {
      assert m + m' == m;
    } else {
      var k :| k in m;
      assert k in m + m';
      assert Entries(dst) + (m + m') == (Entries(dst) + m) + m';
    }
  }

  lemma {:induction false} LeafAfterSave(f: Field, v: Value, dst: Value, prefixes: seq<string>, h: Hash)
    requires f.Leaf? && Fits(f, v) && Fits(f, dst) && LoadField(f, h, dst, prefixes).Success?
    ensures LoadField(f, h + SaveField(f, v, prefixes).value, dst, prefixes)
         == Success(Overlay(f, v, LoadField(f, h, dst, prefixes).value))
  {
    LeafSurvives(f.kind, v, dst);
  }

  lemma {:induction false} MapAfterSave(f: Field, v: Value, dst: Value, prefixes: seq<string>, h: Hash)
    requires f.ExpandMap? && Fits(f, v) && Fits(f, dst) && WellFormedField(f, prefixes)
    requires SaveField(f, v, prefixes).Success?
    ensures LoadField(f, h + SaveField(f, v, prefixes).value, dst, prefixes)
         == Success(Overlay(f, v, LoadField(f, h, dst, prefixes).value))
  {
    var path := prefixes + [f.name];
    var m := Entries(v);
    if m == map[] {
      assert h + SaveField(f, v, prefixes).value == h;
    } else {
      MapsMerge(m, path, h);
      MergedIntoTwice(dst, Selected(h, MapPrefix(path)), m);
    }
  }

  /** The core of the codec: HMSET of a saved field over any stored hash changes what the field
      reads as by exactly an overlay, whatever else the hash holds. */
  lemma {:induction false} LoadFieldAfterSave(f: Field, v: Value, dst: Value, prefixes: seq<string>, h: Hash)
    requires Fits(f, v) && Fits(f, dst) && WellFormedField(f, prefixes)
    requires SaveField(f, v, prefixes).Success? && LoadField(f, h, dst, prefixes).Success?
    ensures LoadField(f, h + SaveField(f, v, prefixes).value, dst, prefixes)
         == Success(Overlay(f, v, LoadField(f, h, dst, prefixes).value))
    decreases f, 0
  {
    var saved := SaveField(f, v, prefixes).value;
    match f
    case Leaf(_, _, _) => LeafAfterSave(f, v, dst, prefixes, h);
    case ExpandMap(_, _) => MapAfterSave(f, v, dst, prefixes, h);
    case ExpandStruct(name, omit, _, sub) =>
      if v.NilPtr? || (omit && v.fields == Zeros(sub)) {
        assert h + saved == h;
      } else if dst.Struct? {
        LoadAfterSave(sub, v.fields, dst.fields, prefixes + [name], h);
      }
    case Untouched => assert h + saved == h;
    case ExpandOther(_) =>
  }

  lemma {:induction false} LoadAfterSave(fs: seq<Field>, vs: seq<Value>, dst: seq<Value>, prefixes: seq<string>,
                                         h: Hash)
    requires FitsAll(fs, vs) && FitsAll(fs, dst) && WellFormed(fs, prefixes)
    requires SaveFields(fs, vs, prefixes).Success? && LoadFields(fs, h, dst, prefixes).Success?
    ensures LoadFields(fs, h + SaveFields(fs, vs, prefixes).value, dst, prefixes)
         == Success(Overlays(fs, vs, LoadFields(fs, h, dst, prefixes).value))
    decreases fs, 1
  {
    if fs == [] {
    } else {
      var n := |fs| - 1;
      LoadAfterSave(fs[..n], vs[..n], dst[..n], prefixes, h);
      LoadFieldAfterSave(fs[n], vs[n], dst[n], prefixes, h);
      SiblingsDoNotInterfere(fs, vs, prefixes, h);
      var h' := h + SaveFields(fs, vs, prefixes).value;
      LoadReadsOwnKeys(fs[..n], h', h + SaveFields(fs[..n], vs[..n], prefixes).value, dst[..n], prefixes);
      LoadFieldReadsOwnKeys(fs[n], h', h + SaveField(fs[n], vs[n], prefixes).value, dst[n], prefixes);
      var left, right := LoadFields(fs[..n], h, dst[..n], prefixes).value, LoadField(fs[n], h, dst[n], prefixes).value;
      assert (left + [right])[..n] == left;
    }
  }

  lemma {:induction false} SiblingsDoNotInterfere(fs: seq<Field>, vs: seq<Value>, prefixes: seq<string>, h: Hash)
    requires fs != [] && FitsAll(fs, vs) && WellFormed(fs, prefixes) && SaveFields(fs, vs, prefixes).Success?
    ensures var n := |fs| - 1;
      var h' := h + SaveFields(fs, vs, prefixes).value;
      && Agree(h', h + SaveFields(fs[..n], vs[..n], prefixes).value, Patterns(fs[..n], prefixes))
      && Agree(h', h + SaveField(fs[n], vs[n], prefixes).value, FieldPatterns(fs[n], prefixes))
  {
    var n := |fs| - 1;
    AllSavedKeysAreOwned(fs[..n], vs[..n], prefixes);
    SavedKeysAreOwned(fs[n], vs[n], prefixes);
    var ps, qs := Patterns(fs[..n], prefixes), FieldPatterns(fs[n], prefixes);
    forall k ensures !(Owned(ps, k) && Owned(qs, k)) {
      OwnedByOneSide(ps, qs, k);
    }
  }

  /** No field that can be neither saved nor loaded is reached. */
  predicate Expandable(f: Field, v: Value)
    requires Fits(f, v)
    decreases f
  {
    match f
    case ExpandOther(_) => false
    case ExpandStruct(_, _, _, sub) => v.NilPtr? || AllExpandable(sub, v.fields)
    case _ => true
  }

  predicate AllExpandable(fs: seq<Field>, vs: seq<Value>)
    requires FitsAll(fs, vs)
    decreases fs
  {
    forall i :: 0 <= i < |fs| ==> Expandable(fs[i], vs[i])
  }

  /** The empty hash leaves the destination alone, unless a field cannot be loaded at all. */
  lemma {:induction false} LoadOfNothing(f: Field, dst: Value, prefixes: seq<string>)
    requires Fits(f, dst)
    ensures LoadField(f, map[], dst, prefixes) == (if Expandable(f, dst) then Success(dst) else Failure(CannotExpand))
    decreases f, 0
  {
    match f
    case ExpandMap(name, _) =>
      SelectionUnique(map[], MapPrefix(prefixes + [name]), map[]);
    case ExpandStruct(name, _, _, sub) =>
      if dst.Struct? {
        LoadAllOfNothing(sub, dst.fields, prefixes + [name]);
      }
    case _ =>
  }

  lemma {:induction false} LoadAllOfNothing(fs: seq<Field>, dst: seq<Value>, prefixes: seq<string>)
    requires FitsAll(fs, dst)
    ensures LoadFields(fs, map[], dst, prefixes)
         == (if AllExpandable(fs, dst) then Success(dst) else Failure(CannotExpand))
    decreases fs, 1
  {
    if fs == [] {
    } else {
      var n := |fs| - 1;
      LoadAllOfNothing(fs[..n], dst[..n], prefixes);
      LoadOfNothing(fs[n], dst[n], prefixes);
      assert dst == dst[..n] + [dst[n]];
      assert forall i :: 0 <= i < n ==> fs[..n][i] == fs[i] && dst[..n][i] == dst[i];
    }
  }

  lemma {:induction false} LoadsAt(fs: seq<Field>, h: Hash, dst: seq<Value>, prefixes: seq<string>, i: nat)
    requires FitsAll(fs, dst) && i < |fs| && LoadFields(fs, h, dst, prefixes).Success?
    ensures LoadField(fs[i], h, dst[i], prefixes) == Success(LoadFields(fs, h, dst, prefixes).value[i])
    decreases |fs|
  {
    var n := |fs| - 1;
    if i == n {
    } else {
      LoadsAt(fs[..n], h, dst[..n], prefixes, i);
    }
  }

  /** Schemas without numbers or booleans: no stored text can be malformed for them. */
  predicate TextOnly(fs: seq<Field>)
    decreases fs
  {
    forall i :: 0 <= i < |fs| ==>
      match fs[i]
      case Leaf(_, _, kind) => kind.KString? || kind.KStrings? || kind.KStruct?
      case ExpandStruct(_, _, _, sub) => TextOnly(sub)
      case ExpandOther(_) => false
      case _ => true
  }

  lemma {:induction false} TextAlwaysLoads(fs: seq<Field>, h: Hash, dst: seq<Value>, prefixes: seq<string>)
    requires FitsAll(fs, dst) && TextOnly(fs)
    ensures LoadFields(fs, h, dst, prefixes).Success?
    decreases fs
  {
    if fs == [] {
    } else {
      var n := |fs| - 1;
      assert forall i :: 0 <= i < n ==> fs[..n][i] == fs[i];
      TextAlwaysLoads(fs[..n], h, dst[..n], prefixes);
      if fs[n].ExpandStruct? && dst[n].Struct? {
        TextAlwaysLoads(fs[n].sub, h, dst[n].fields, prefixes + [fs[n].name]);
      }
    }
  }

  // ---------------------------------------------------------------- loading over a blank destination

  /** The destination a caller prepares for `v`: the zero value, with a pointee allocated
      wherever `v` has one. */
  function Blank(f: Field, v: Value): (dst: Value)
    requires Fits(f, v)
    ensures Fits(f, dst)
    decreases f
  {
    if f.ExpandStruct? && v.Struct? then Struct(Blanks(f.sub, v.fields)) else Zero(f)
  }

  function Blanks(fs: seq<Field>, vs: seq<Value>): (dst: seq<Value>)
    requires FitsAll(fs, vs)
    ensures FitsAll(fs, dst)
    decreases fs
  {
    if fs == [] then []
    else
      var n := |fs| - 1;
      Blanks(fs[..n], vs[..n]) + [Blank(fs[n], vs[n])]
  }

  /** The values whose every part is carried by the hash. */
  ghost predicate InDomain(f: Field, v: Value)
    requires Fits(f, v)
    decreases f
  {
    match f
    case Untouched => v == Opaque(0)
    case ExpandOther(_) => false
    case Leaf(name, omit, kind) =>
      if Unsaved(name, omit, v) || kind.KStruct? then v == Zero(f)
      else kind.KStrings? ==> Separable(v.ss)
    case ExpandMap(_, _) => v != Map(map[])
    case ExpandStruct(_, _, _, sub) => v.NilPtr? || AllInDomain(sub, v.fields)
  }

  ghost predicate AllInDomain(fs: seq<Field>, vs: seq<Value>)
    requires FitsAll(fs, vs)
    decreases fs
  {
    forall i :: 0 <= i < |fs| ==> InDomain(fs[i], vs[i])
  }

  lemma {:induction false} BlankExpandable(f: Field, v: Value)
    requires Fits(f, v)
    ensures Expandable(f, Blank(f, v)) <==> Expandable(f, v)
    ensures InDomain(f, v) ==> Expandable(f, v)
    decreases f, 0
  {
    match f
    case ExpandStruct(_, _, _, sub) => if v.Struct? { BlanksExpandable(sub, v.fields); }
    case _ =>
  }

  lemma {:induction false} BlanksExpandable(fs: seq<Field>, vs: seq<Value>)
    requires FitsAll(fs, vs)
    ensures AllExpandable(fs, Blanks(fs, vs)) <==> AllExpandable(fs, vs)
    ensures AllInDomain(fs, vs) ==> AllExpandable(fs, vs)
    decreases fs, 1
  {
    forall i | 0 <= i < |fs|
      ensures Blanks(fs, vs)[i] == Blank(fs[i], vs[i])
    {
      BlanksAt(fs, vs, i);
    }
    forall i | 0 <= i < |fs|
      ensures Expandable(fs[i], Blank(fs[i], vs[i])) <==> Expandable(fs[i], vs[i])
      ensures InDomain(fs[i], vs[i]) ==> Expandable(fs[i], vs[i])
    {
      BlankExpandable(fs[i], vs[i]);
    }
  }

  lemma {:induction false} BlanksAt(fs: seq<Field>, vs: seq<Value>, i: nat)
    requires FitsAll(fs, vs) && i < |fs|
    ensures Blanks(fs, vs)[i] == Blank(fs[i], vs[i])
    decreases |fs|
  {
    var n := |fs| - 1;
    if i == n {
    } else {
      BlanksAt(fs[..n], vs[..n], i);
    }
  }

  /** A zero value that is compared, and whose struct, if it is one, is in the domain itself. */
  lemma {:induction false} ZeroInDomain(f: Field)
    requires Comparable([f]) && Expandable(f, Zero(f))
    requires f.ExpandStruct? && !f.pointer ==>
      AllInDomain(f.sub, Zeros(f.sub)) && Blanks(f.sub, Zeros(f.sub)) == Zeros(f.sub)
    ensures InDomain(f, Zero(f)) && Blank(f, Zero(f)) == Zero(f)
  {
    assert [f][0] == f;
  }

  lemma {:induction false} ZerosInDomain(fs: seq<Field>)
    requires Comparable(fs) && AllExpandable(fs, Zeros(fs))
    ensures AllInDomain(fs, Zeros(fs)) && Blanks(fs, Zeros(fs)) == Zeros(fs)
    decreases fs
  {
    if fs == [] {
    } else {
      var n := |fs| - 1;
      var f := fs[n];
      assert Zeros(fs)[..n] == Zeros(fs[..n]);
      ZerosInDomain(fs[..n]);
      assert Expandable(f, Zeros(fs)[n]);
      if f.ExpandStruct? && !f.pointer {
        ZerosInDomain(f.sub);
      }
      ZeroInDomain(f);
      InDomainSnoc(fs, Zeros(fs));
    }
  }

  lemma {:induction false} OverlayOnBlank(f: Field, v: Value, prefixes: seq<string>)
    requires Fits(f, v) && Expandable(f, v) && SaveField(f, v, prefixes).Success?
    ensures Overlay(f, v, Blank(f, v)) == v <==> InDomain(f, v)
    decreases f, 0
  {
    match f
    case Leaf(_, _, kind) =>
      if kind.KStrings? {
        ListSurvivesExactlyWhenSeparable(v.ss);
      }
    case ExpandMap(_, _) =>
      assert map[] + Entries(v) == Entries(v);
    case ExpandStruct(name, omit, _, sub) =>
      if v.Struct? {
        if omit && v.fields == Zeros(sub) {
          ZerosInDomain(sub);
        } else {
          OverlaysOnBlanks(sub, v.fields, prefixes + [name]);
        }
      }
    case _ =>
  }

  lemma {:induction false} OverlaysOnBlanks(fs: seq<Field>, vs: seq<Value>, prefixes: seq<string>)
    requires FitsAll(fs, vs) && AllExpandable(fs, vs) && SaveFields(fs, vs, prefixes).Success?
    ensures Overlays(fs, vs, Blanks(fs, vs)) == vs <==> AllInDomain(fs, vs)
    decreases fs, 1
  {
    if fs == [] {
    } else {
      var n := |fs| - 1;
      OverlaysOnBlanks(fs[..n], vs[..n], prefixes);
      OverlayOnBlank(fs[n], vs[n], prefixes);
      assert Blanks(fs, vs)[..n] == Blanks(fs[..n], vs[..n]);
      var left := Overlays(fs[..n], vs[..n], Blanks(fs[..n], vs[..n]));
      SnocEquality(left, Overlay(fs[n], vs[n], Blank(fs[n], vs[n])), vs);
      InDomainSnoc(fs, vs);
    }
  }

  lemma SnocEquality(left: seq<Value>, last: Value, vs: seq<Value>)
    requires |vs| == |left| + 1
    ensures left + [last] == vs <==> left == vs[..|left|] && last == vs[|left|]
  {
    assert (left + [last])[..|left|] == left;
    assert vs == vs[..|left|] + [vs[|left|]];
  }

  lemma {:induction false} InDomainSnoc(fs: seq<Field>, vs: seq<Value>)
    requires FitsAll(fs, vs) && fs != []
    ensures var n := |fs| - 1;
      AllInDomain(fs, vs) <==> AllInDomain(fs[..n], vs[..n]) && InDomain(fs[n], vs[n])
  {
    var n := |fs| - 1;
    assert forall i :: 0 <= i < n ==> fs[..n][i] == fs[i] && vs[..n][i] == vs[i];
  }

  lemma {:induction false} UnexpandableFails(f: Field, h: Hash, dst: Value, prefixes: seq<string>)
    requires Fits(f, dst) && !Expandable(f, dst)
    ensures LoadField(f, h, dst, prefixes).Failure?
    decreases f, 0
  {
    if f.ExpandStruct? {
      UnexpandableFieldsFail(f.sub, h, dst.fields, prefixes + [f.name]);
    }
  }

  lemma {:induction false} UnexpandableFieldsFail(fs: seq<Field>, h: Hash, dst: seq<Value>, prefixes: seq<string>)
    requires FitsAll(fs, dst) && !AllExpandable(fs, dst)
    ensures LoadFields(fs, h, dst, prefixes).Failure?
    decreases fs, 1
  {
    var n := |fs| - 1;
    if Expandable(fs[n], dst[n]) {
      assert forall i :: 0 <= i < n ==> fs[..n][i] == fs[i] && dst[..n][i] == dst[i];
      UnexpandableFieldsFail(fs[..n], h, dst[..n], prefixes);
    } else {
      UnexpandableFails(fs[n], h, dst[n], prefixes);
    }
  }

  // ---------------------------------------------------------------- the round trip

  /** HMSET merges: over any stored hash, and for every well-formed schema and savable record,
      the record read back afterwards is the one read before with the saved one laid over it. */
  lemma {:induction false} SaveOverlaysStoredRecord(fs: seq<Field>, vs: seq<Value>, dst: seq<Value>, h: Hash)
    requires FitsAll(fs, vs) && FitsAll(fs, dst) && WellFormed(fs, [])
    requires SaveFields(fs, vs, []).Success? && LoadFields(fs, h, dst, []).Success?
    ensures LoadFields(fs, h + SaveFields(fs, vs, []).value, dst, [])
         == Success(Overlays(fs, vs, LoadFields(fs, h, dst, []).value))
  {
    LoadAfterSave(fs, vs, dst, [], h);
  }

  /** Into a fresh hash, the destination itself is what the record is laid over. */
  lemma {:induction false} FreshSaveOverlaysDestination(fs: seq<Field>, vs: seq<Value>, dst: seq<Value>)
    requires FitsAll(fs, vs) && FitsAll(fs, dst) && WellFormed(fs, []) && AllExpandable(fs, dst)
    requires SaveFields(fs, vs, []).Success?
    ensures LoadFields(fs, SaveFields(fs, vs, []).value, dst, []) == Success(Overlays(fs, vs, dst))
  {
    var saved := SaveFields(fs, vs, []).value;
    assert map[] + saved == saved;
    LoadAllOfNothing(fs, dst, []);
    SaveOverlaysStoredRecord(fs, vs, dst, map[]);
  }

  /** The round trip, exactly: a saved record comes back into a blank destination if and only if
      it lies in the codec's domain. */
  lemma {:induction false} RoundTripExactlyInDomain(fs: seq<Field>, vs: seq<Value>)
    requires FitsAll(fs, vs) && WellFormed(fs, []) && SaveFields(fs, vs, []).Success?
    ensures LoadFields(fs, SaveFields(fs, vs, []).value, Blanks(fs, vs), []) == Success(vs)
       <==> AllInDomain(fs, vs)
  {
    BlanksExpandable(fs, vs);
    if AllExpandable(fs, vs) {
      FreshSaveOverlaysDestination(fs, vs, Blanks(fs, vs));
      OverlaysOnBlanks(fs, vs, []);
    } else {
      UnexpandableFieldsFail(fs, SaveFields(fs, vs, []).value, Blanks(fs, vs), []);
    }
  }

  /** A struct field tagged without `expand` is written but never read: only its zero value
      survives. */
  lemma {:induction false} UnexpandedStructIsLost(fs: seq<Field>, vs: seq<Value>, i: nat)
    requires FitsAll(fs, vs) && WellFormed(fs, []) && SaveFields(fs, vs, []).Success?
    requires i < |fs| && fs[i].Leaf? && fs[i].kind.KStruct? && vs[i] != Zero(fs[i])
    ensures LoadFields(fs, SaveFields(fs, vs, []).value, Blanks(fs, vs), []) != Success(vs)
  {
    assert !InDomain(fs[i], vs[i]);
    RoundTripExactlyInDomain(fs, vs);
  }

  /** The values that can be saved at all. */
  predicate Savable(f: Field, v: Value)
    requires Fits(f, v)
    decreases f
  {
    match f
    case ExpandOther(_) => false
    case ExpandMap(_, omit) => omit || Entries(v) != map[]
    case ExpandStruct(_, omit, _, sub) =>
      v.NilPtr? || (if omit then Comparable(sub) && (v.fields == Zeros(sub) || AllSavable(sub, v.fields))
                    else AllSavable(sub, v.fields))
    case _ => true
  }

  predicate AllSavable(fs: seq<Field>, vs: seq<Value>)
    requires FitsAll(fs, vs)
    decreases fs
  {
    forall i :: 0 <= i < |fs| ==> Savable(fs[i], vs[i])
  }

  lemma {:induction false} AllSavableSnoc(fs: seq<Field>, vs: seq<Value>)
    requires FitsAll(fs, vs) && fs != []
    ensures AllSavable(fs, vs) <==>
      AllSavable(fs[..|fs| - 1], vs[..|fs| - 1]) && Savable(fs[|fs| - 1], vs[|fs| - 1])
  {
    var n := |fs| - 1;
    assert forall i :: 0 <= i < n ==> fs[..n][i] == fs[i] && vs[..n][i] == vs[i];
  }

  lemma {:induction false} SaveSucceedsExactlyWhenSavable(fs: seq<Field>, vs: seq<Value>, prefixes: seq<string>)
    requires FitsAll(fs, vs)
    ensures SaveFields(fs, vs, prefixes).Success? <==> AllSavable(fs, vs)
    decreases fs
  {
    if fs == [] {
    } else {
      var n := |fs| - 1;
      var f, v := fs[n], vs[n];
      SaveSucceedsExactlyWhenSavable(fs[..n], vs[..n], prefixes);
      if f.ExpandStruct? && v.Struct? {
        SaveSucceedsExactlyWhenSavable(f.sub, v.fields, prefixes + [f.name]);
      }
      assert SaveField(f, v, prefixes).Success? <==> Savable(f, v);
      AllSavableSnoc(fs, vs);
    }
  }

  lemma SelectedTopLevel(h: Hash)
    ensures Selected(h, "") == h
  {
    forall k ensures Qualified("", k) == k {}
    SelectionUnique(h, "", h);
  }

  lemma {:induction false} UnprefixedKey(k: string)
    ensures Key([], k) == k
  {
    assert [] + [k] == [k];
  }

  lemma {:induction false} PrefixedByNothing(m: map<string, string>)
    ensures Prefixed([], m, m)
  {
    forall k | k in m ensures Key([], k) in m && m[Key([], k)] == m[k] {
      UnprefixedKey(k);
    }
    forall k' | k' in m ensures exists k :: k in m && k' == Key([], k) {
      UnprefixedKey(k');
      assert k' == Key([], k');
    }
  }

  lemma {:induction false} SavedAtTopLevel(m: map<string, string>)
    requires m != map[]
    ensures SaveMap(m, []) == Success(m)
  {
    PrefixedByNothing(m);
    PrefixedUnique([], m, WithPrefix([], m), m);
  }

  lemma {:induction false} LoadedAtTopLevel(h: Hash)
    requires h != map[]
    ensures LoadedMap(h, NilMap, []) == Map(h)
  {
    SelectedTopLevel(h);
    var nothing: map<string, string> := map[];
    assert nothing + h == h;
  }

  /** Saving and loading a top-level `map[string]string` gives the map back. */
  lemma {:induction false} TopLevelMapRoundTrip(m: map<string, string>)
    requires m != map[]
    ensures SaveMap(m, []).Success? && LoadedMap(SaveMap(m, []).value, NilMap, []) == Map(m)
  {
    SavedAtTopLevel(m);
    LoadedAtTopLevel(m);
  }

  lemma {:induction false} LongestKey(keys: set<string>) returns (longest: string)
    requires keys != {}
    ensures longest in keys && forall k :: k in keys ==> |k| <= |longest|
  {
    var k :| k in keys;
    longest := k;
    if keys == {k} {
    } else {
      var l := LongestKey(keys - {k});
      longest := if |k| <= |l| then l else k;
    }
  }

  lemma {:induction false} UnnamedKeysAreLonger(path: seq<string>, m: map<string, string>)
    requires path != [] && Join(path, "_") == "" && m != map[]
    ensures Selected(WithPrefix(path, m), MapPrefix(path)) != m
  {
    var h := WithPrefix(path, m);
    var k := LongestKey(m.Keys);
    JoinSnoc(path, k, "_");
    SelectedTopLevel(h);
    assert Key(path, k) in Selected(h, "");
    assert Key(path, k) !in m;
  }

  lemma {:induction false} NamedMapSelectsItself(path: seq<string>, m: map<string, string>)
    requires path != [] && Join(path, "_") != ""
    ensures Selected(WithPrefix(path, m), MapPrefix(path)) == m
  {
    var nothing: Hash := map[];
    MapsMerge(m, path, nothing);
    SelectionUnique(nothing, MapPrefix(path), nothing);
    assert nothing + WithPrefix(path, m) == WithPrefix(path, m) && nothing + m == m;
  }

  /** A map field comes back into a nil map exactly when its path is named. Otherwise it is saved
      under a leading underscore that loading does not strip. */
  lemma {:induction false} MapReturnsExactlyWhenNamed(f: Field, m: map<string, string>, prefixes: seq<string>)
    requires f.ExpandMap? && m != map[]
    ensures SaveField(f, Map(m), prefixes).Success?
    ensures LoadField(f, SaveField(f, Map(m), prefixes).value, NilMap, prefixes) == Success(Map(m))
       <==> Join(prefixes + [f.name], "_") != ""
  {
    var path := prefixes + [f.name];
    if Join(path, "_") == "" {
      UnnamedKeysAreLonger(path, m);
    } else {
      NamedMapSelectsItself(path, m);
    }
    var selected := Selected(WithPrefix(path, m), MapPrefix(path));
    var nothing: map<string, string> := map[];
    assert nothing + selected == selected;
  }
}
