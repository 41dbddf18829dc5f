/** The record codec of db/redis/storage: a tagged struct or a string map is flattened into the
    string fields of one Redis hash, and a hash is loaded back into a destination.

    Go reflection is replaced by a schema, one `Field` per struct field, and by a tree of
    values typed by that schema. */
module Codec {
  import opened Wrappers
  import opened Text
  import opened Decimal

  // ---------------------------------------------------------------- schemas and values

  /** KStruct stands for a struct field tagged without `expand`; `zero` is the text of its zero
      value. Such a field is printed when saving and skipped when loading. */
  datatype Kind = KString | KStrings | KBool | KInt | KUint | KStruct(zero: string)

  datatype Field =
    | Untouched                                         // unexported, or tagged "-"
    | Leaf(name: string, omitEmpty: bool, kind: Kind)
    | ExpandMap(name: string, omitEmpty: bool)          // map[string]string
    | ExpandStruct(name: string, omitEmpty: bool, pointer: bool, sub: seq<Field>)
    | ExpandOther(name: string)                         // expand on anything else

  /** A nil slice and an empty slice are the same value here; a nil map and an empty map are not. */
  datatype Value =
    | Opaque(id: int)
    | Str(s: string) | Strs(ss: seq<string>) | Bool(b: bool) | Int(i: int) | Uint(u: nat)
    | Blob(text: string)
    | NilMap | Map(m: map<string, string>)
    | NilPtr | Struct(fields: seq<Value>)

  datatype Error = EmptyMap | CannotExpand | Uncomparable | BadBool | BadInt | BadUint

  type Hash = map<string, string>

  predicate Fits(f: Field, v: Value)
    decreases f
  {
    match f
    case Untouched => v.Opaque?
    case ExpandOther(_) => v.Opaque?
    case Leaf(_, _, kind) => FitsKind(kind, v)
    case ExpandMap(_, _) => v.NilMap? || v.Map?
    case ExpandStruct(_, _, pointer, sub) =>
      (pointer && v.NilPtr?) || (v.Struct? && FitsAll(sub, v.fields))
  }

  predicate FitsKind(kind: Kind, v: Value) {
    match kind
    case KString => v.Str?
    case KStrings => v.Strs?
    case KBool => v.Bool?
    case KInt => v.Int? && MIN_INT64 <= v.i <= MAX_INT64
    case KUint => v.Uint? && v.u <= MAX_UINT64
    case KStruct(_) => v.Blob?
  }

  predicate FitsAll(fs: seq<Field>, vs: seq<Value>)
    decreases fs
  {
    |fs| == |vs| && forall i :: 0 <= i < |fs| ==> Fits(fs[i], vs[i])
  }

  function Zero(f: Field): (v: Value)
    ensures Fits(f, v)
    decreases f
  {
    match f
    case Untouched => Opaque(0)
    case ExpandOther(_) => Opaque(0)
    case Leaf(_, _, KString) => Str("")
    case Leaf(_, _, KStrings) => Strs([])
    case Leaf(_, _, KBool) => Bool(false)
    case Leaf(_, _, KInt) => Int(0)
    case Leaf(_, _, KUint) => Uint(0)
    case Leaf(_, _, KStruct(zero)) => Blob(zero)
    case ExpandMap(_, _) => NilMap
    case ExpandStruct(_, _, pointer, sub) => if pointer then NilPtr else Struct(Zeros(sub))
  }

  function Zeros(fs: seq<Field>): (vs: seq<Value>)
    ensures FitsAll(fs, vs)
    decreases fs
  {
    if fs == [] then [] else Zeros(fs[..|fs| - 1]) + [Zero(fs[|fs| - 1])]
  }

  /** Go refuses, by panicking, to compare structs that hold a map or a slice by value. */
  predicate Comparable(fs: seq<Field>)
    decreases fs
  {
    forall i :: 0 <= i < |fs| ==>
      match fs[i]
      case Leaf(_, _, kind) => !kind.KStrings?
      case ExpandMap(_, _) => false
      case ExpandStruct(_, _, pointer, sub) => pointer || Comparable(sub)
      case _ => true
  }

  // ---------------------------------------------------------------- saving

  function Key(prefixes: seq<string>, name: string): string {
    Join(prefixes + [name], "_")
  }

  /** The text stored for a leaf. */
  function Printed(v: Value): string {
    match v
    case Str(s) => s
    case Strs(ss) => Join(ss, LIST_SEPARATOR)
    case Bool(b) => PrintBool(b)
    case Int(i) => PrintInt(i)
    case Uint(u) => Digits(u)
    case Blob(text) => text
    case _ => ""
  }

  function Entries(v: Value): map<string, string> {
    if v.Map? then v.m else map[]
  }

  lemma KeyInjective(prefixes: seq<string>, k: string, k': string)
    ensures Key(prefixes, k) == Key(prefixes, k') <==> k == k'
  {
    if prefixes != [] {
      JoinSnoc(prefixes, k, "_");
      JoinSnoc(prefixes, k', "_");
      var p := Join(prefixes, "_") + "_";
      assert (p + k)[|p|..] == k && (p + k')[|p|..] == k';
    }
  }

  /** The entries of `m` under `prefixes`. */
  ghost predicate Prefixed(prefixes: seq<string>, m: map<string, string>, h: Hash) {
    && (forall k {:trigger Key(prefixes, k)} :: k in m ==> Key(prefixes, k) in h && h[Key(prefixes, k)] == m[k])
    && (forall k' :: k' in h ==> exists k :: k in m && k' == Key(prefixes, k))
  }

  lemma PrefixedUnique(prefixes: seq<string>, m: map<string, string>, h: Hash, h': Hash)
    requires Prefixed(prefixes, m, h) && Prefixed(prefixes, m, h')
    ensures h == h'
  {
    forall k' | k' in h ensures k' in h' && h[k'] == h'[k'] {
      var k :| k in m && k' == Key(prefixes, k);
    }
    forall k' | k' in h' ensures k' in h {
      var k :| k in m && k' == Key(prefixes, k);
    }
  }

  ghost function WithPrefix(prefixes: seq<string>, m: map<string, string>): (h: Hash)
    ensures Prefixed(prefixes, m, h)
  {
    forall k, k' ensures Key(prefixes, k) == Key(prefixes, k') <==> k == k' {
      KeyInjective(prefixes, k, k');
    }
    map k | k in m :: Key(prefixes, k) := m[k]
  }

  ghost function SaveMap(m: map<string, string>, prefixes: seq<string>): Result<Hash, Error> {
    if m == map[] then Failure(EmptyMap) else Success(WithPrefix(prefixes, m))
  }

  ghost function SaveField(f: Field, v: Value, prefixes: seq<string>): Result<Hash, Error>
    requires Fits(f, v)
    decreases f
  {
    match f
    case Untouched => Success(map[])
    case ExpandOther(_) => Failure(CannotExpand)
    case Leaf(name, omit, _) =>
      if name == "" || (omit && Printed(v) == "") then Success(map[])
      else Success(map[Key(prefixes, name) := Printed(v)])
    case ExpandMap(name, omit) =>
      if omit && Entries(v) == map[] then Success(map[])
      else SaveMap(Entries(v), prefixes + [name])
    case ExpandStruct(name, omit, _, sub) =>
      if v.NilPtr? then Success(map[])
      else if omit && !Comparable(sub) then Failure(Uncomparable)
      else if omit && v.fields == Zeros(sub) then Success(map[])
      else SaveFields(sub, v.fields, prefixes + [name])
  }

  /** Field by field, left to right: the first error stops, a later field overwrites. */
  ghost function SaveFields(fs: seq<Field>, vs: seq<Value>, prefixes: seq<string>): Result<Hash, Error>
    requires FitsAll(fs, vs)
    decreases fs
  {
    if fs == [] then Success(map[])
    else
      var n := |fs| - 1;
      match SaveFields(fs[..n], vs[..n], prefixes)
      case Failure(e) => Failure(e)
      case Success(h) =>
        match SaveField(fs[n], vs[n], prefixes)
        case Failure(e) => Failure(e)
        case Success(h') => Success(h + h')
  }

  lemma {:induction false} SaveErrorIsFinal(fs: seq<Field>, vs: seq<Value>, prefixes: seq<string>, i: nat)
    requires FitsAll(fs, vs) && i <= |fs| && SaveFields(fs[..i], vs[..i], prefixes).Failure?
    ensures SaveFields(fs, vs, prefixes) == SaveFields(fs[..i], vs[..i], prefixes)
    decreases |fs|
  {
    if i == |fs| {
      assert fs[..i] == fs && vs[..i] == vs;
    } else {
      var n := |fs| - 1;
      assert fs[..n][..i] == fs[..i] && vs[..n][..i] == vs[..i];
      SaveErrorIsFinal(fs[..n], vs[..n], prefixes, i);
    }
  }

  method MapToFieldList(m: map<string, string>, prefixes: seq<string>) returns (r: Result<Hash, Error>)
    ensures r == SaveMap(m, prefixes)
  {
    if m == map[] {
      return Failure(EmptyMap);
    }
    var fields: Hash := map[];
    var todo := m.Keys;
    while todo != {}
      invariant todo <= m.Keys
      invariant forall k :: k in m && k !in todo ==> Key(prefixes, k) in fields && fields[Key(prefixes, k)] == m[k]
      invariant forall k' :: k' in fields ==> exists k :: k in m && k' == Key(prefixes, k)
    {
      var key :| key in todo;
      forall k ensures Key(prefixes, k) == Key(prefixes, key) <==> k == key {
        KeyInjective(prefixes, k, key);
      }
      fields := fields[Key(prefixes, key) := m[key]];
      todo := todo - {key};
    }
    PrefixedUnique(prefixes, m, fields, WithPrefix(prefixes, m));
    r := Success(fields);
  }

  /** One turn of the loop over the struct's fields. */
  method StructFieldToFieldList(f: Field, v: Value, prefixes: seq<string>) returns (r: Result<Hash, Error>)
    requires Fits(f, v)
    ensures r == SaveField(f, v, prefixes)
    decreases f, 0
  {
    r := Success(map[]);
    match f {
      case Untouched =>
      case ExpandOther(_) => r := Failure(CannotExpand);
      case Leaf(name, omit, _) =>
        if name != "" && !(omit && Printed(v) == "") {
          r := Success(map[Key(prefixes, name) := Printed(v)]);
        }
      case ExpandMap(name, omit) =>
        if !(omit && Entries(v) == map[]) {
          r := MapToFieldList(Entries(v), prefixes + [name]);
        }
      case ExpandStruct(name, omit, _, sub) =>
        if v.NilPtr? {
        } else if omit && !Comparable(sub) {
          r := Failure(Uncomparable);
        } else if omit && v.fields == Zeros(sub) {
        } else {
          r := StructToFieldList(sub, v.fields, prefixes + [name]);
        }
    }
  }

  method StructToFieldList(fs: seq<Field>, vs: seq<Value>, prefixes: seq<string>) returns (r: Result<Hash, Error>)
    requires FitsAll(fs, vs)
    ensures r == SaveFields(fs, vs, prefixes)
    decreases fs, 1
  {
    var fields: Hash := map[];
    for i := 0 to |fs|
      invariant SaveFields(fs[..i], vs[..i], prefixes) == Success(fields)
    {
      assert fs[..i + 1][..i] == fs[..i] && vs[..i + 1][..i] == vs[..i];
      var own := StructFieldToFieldList(fs[i], vs[i], prefixes);
      if own.Failure? {
        SaveErrorIsFinal(fs, vs, prefixes, i + 1);
        return own;
      }
      fields := fields + own.value;
    }
    assert fs[..|fs|] == fs && vs[..|vs|] == vs;
    r := Success(fields);
  }

  // ---------------------------------------------------------------- loading

  function LoadLeaf(kind: Kind, text: string, dst: Value): Result<Value, Error> {
    match kind
    case KString => Success(Str(text))
    case KStrings => Success(Strs(Split(text, LIST_SEPARATOR)))
    case KBool => (match ParseBool(text) case Some(b) => Success(Bool(b)) case None => Failure(BadBool))
    case KInt => (match ParseInt(text) case Some(i) => Success(Int(i)) case None => Failure(BadInt))
    case KUint => (match ParseUint(text) case Some(u) => Success(Uint(u)) case None => Failure(BadUint))
    case KStruct(_) => Success(dst)
  }

  /** What a key must start with to be loaded into the map tagged by the last prefix. */
  function MapPrefix(prefixes: seq<string>): string {
    var joined := Join(prefixes, "_");
    if joined == "" then "" else joined + "_"
  }

  function Qualified(prefix: string, k: string): (key: string)
    ensures prefix <= key && key[|prefix|..] == k
  {
    prefix + k
  }

  lemma Requalified(prefix: string, key: string)
    requires prefix <= key
    ensures Qualified(prefix, key[|prefix|..]) == key
  {
  }

  ghost predicate IsSelection(h: Hash, prefix: string, m: map<string, string>) {
    forall k {:trigger Qualified(prefix, k)} ::
      (k in m <==> Qualified(prefix, k) in h) && (k in m ==> m[k] == h[Qualified(prefix, k)])
  }

  lemma SelectionExists(h: Hash, prefix: string)
    ensures exists m :: IsSelection(h, prefix, m)
  {
    var keys := set key | key in h && prefix <= key :: key[|prefix|..];
    forall key | prefix <= key ensures key == Qualified(prefix, key[|prefix|..]) {
      Requalified(prefix, key);
    }
    assert IsSelection(h, prefix, map k | k in keys :: h[Qualified(prefix, k)]);
  }

  /** The entries of `h` under a prefix, with the prefix cut off. */
  ghost function Selected(h: Hash, prefix: string): (m: map<string, string>)
    ensures IsSelection(h, prefix, m)
  {
    SelectionExists(h, prefix);
    var m :| IsSelection(h, prefix, m);
    m
  }

  lemma SelectionUnique(h: Hash, prefix: string, m: map<string, string>)
    requires IsSelection(h, prefix, m)
    ensures m == Selected(h, prefix)
  {
    var m' := Selected(h, prefix);
    forall k ensures (k in m <==> k in m') && (k in m ==> m[k] == m'[k]) {
      var key := Qualified(prefix, k);
    }
  }

  /** A nil map is allocated by the first entry loaded into it. */
  ghost function MergedInto(dst: Value, m: map<string, string>): Value {
    if m == map[] then dst else Map(Entries(dst) + m)
  }

  ghost function LoadedMap(h: Hash, dst: Value, prefixes: seq<string>): Value {
    MergedInto(dst, Selected(h, MapPrefix(prefixes)))
  }

  ghost function LoadField(f: Field, h: Hash, dst: Value, prefixes: seq<string>): (r: Result<Value, Error>)
    requires Fits(f, dst)
    ensures r.Success? ==> Fits(f, r.value)
    decreases f
  {
    match f
    case Untouched => Success(dst)
    case ExpandOther(_) => Failure(CannotExpand)
    case Leaf(name, _, kind) =>
      var key := Key(prefixes, name);
      if key in h then LoadLeaf(kind, h[key], dst) else Success(dst)
    case ExpandMap(name, _) => Success(LoadedMap(h, dst, prefixes + [name]))
    case ExpandStruct(name, _, _, sub) =>
      if dst.NilPtr? then Success(dst)
      else
        match LoadFields(sub, h, dst.fields, prefixes + [name])
        case Failure(e) => Failure(e)
        case Success(vs) => Success(Struct(vs))
  }

  ghost function LoadFields(fs: seq<Field>, h: Hash, dst: seq<Value>, prefixes: seq<string>):
      (r: Result<seq<Value>, Error>)
    requires FitsAll(fs, dst)
    ensures r.Success? ==> FitsAll(fs, r.value)
    decreases fs
  {
    if fs == [] then Success([])
    else
      var n := |fs| - 1;
      match LoadFields(fs[..n], h, dst[..n], prefixes)
      case Failure(e) => Failure(e)
      case Success(vs) =>
        match LoadField(fs[n], h, dst[n], prefixes)
        case Failure(e) => Failure(e)
        case Success(v) => Success(vs + [v])
  }

  lemma {:induction false} LoadErrorIsFinal(fs: seq<Field>, h: Hash, dst: seq<Value>, prefixes: seq<string>, i: nat)
    requires FitsAll(fs, dst) && i <= |fs| && LoadFields(fs[..i], h, dst[..i], prefixes).Failure?
    ensures LoadFields(fs, h, dst, prefixes) == LoadFields(fs[..i], h, dst[..i], prefixes)
    decreases |fs|
  {
    if i == |fs| {
      assert fs[..i] == fs && dst[..i] == dst;
    } else {
      var n := |fs| - 1;
      assert fs[..n][..i] == fs[..i] && dst[..n][..i] == dst[..i];
      LoadErrorIsFinal(fs[..n], h, dst[..n], prefixes, i);
    }
  }

  lemma SelectedGrows(h: Hash, key: string, value: string, prefix: string)
    requires key !in h
    ensures prefix <= key ==>
      Selected(h[key := value], prefix) == Selected(h, prefix)[key[|prefix|..] := value]
    ensures !(prefix <= key) ==> Selected(h[key := value], prefix) == Selected(h, prefix)
  {
    var m, h' := Selected(h, prefix), h[key := value];
    if prefix <= key {
      var cut := key[|prefix|..];
      var m' := m[cut := value];
      Requalified(prefix, key);
      forall k ensures (k in m' <==> Qualified(prefix, k) in h') && (k in m' ==> m'[k] == h'[Qualified(prefix, k)]) {
        assert Qualified(prefix, k) == key <==> k == cut;
      }
      SelectionUnique(h', prefix, m');
    } else {
      assert IsSelection(h', prefix, m);
      SelectionUnique(h', prefix, m);
    }
  }

  lemma MergedIntoGrows(dst: Value, m: map<string, string>, k: string, v: string)
    ensures MergedInto(dst, m[k := v]) == Map(Entries(MergedInto(dst, m))[k := v])
  {
    assert k in m[k := v];
    assert Entries(dst) + m[k := v] == (Entries(dst) + m)[k := v];
    assert Entries(MergedInto(dst, m)) == Entries(dst) + m;
  }

  /** The destination once every key but those in `todo` was visited. */
  ghost function PartlyLoaded(h: Hash, todo: set<string>, dst: Value, prefix: string): Value {
    MergedInto(dst, Selected(h - todo, prefix))
  }

  lemma LoadStep(h: Hash, todo: set<string>, key: string, dst: Value, prefix: string)
    requires key in todo && key in h
    ensures var soFar := PartlyLoaded(h, todo, dst, prefix);
      PartlyLoaded(h, todo - {key}, dst, prefix)
      == if prefix <= key then Map(Entries(soFar)[key[|prefix|..] := h[key]]) else soFar
  {
    assert (h - todo)[key := h[key]] == h - (todo - {key});
    SelectedGrows(h - todo, key, h[key], prefix);
    if prefix <= key {
      MergedIntoGrows(dst, Selected(h - todo, prefix), key[|prefix|..], h[key]);
    }
  }

  lemma LoadEnds(h: Hash, dst: Value, prefix: string)
    ensures PartlyLoaded(h, h.Keys, dst, prefix) == dst
    ensures PartlyLoaded(h, {}, dst, prefix) == MergedInto(dst, Selected(h, prefix))
  {
    assert h - h.Keys == map[] && h - {} == h;
    SelectionUnique(map[], prefix, map[]);
  }

  method LoadMap(h: Hash, dst: Value, prefixes: seq<string>) returns (out: Value)
    requires dst.NilMap? || dst.Map?
    ensures out == LoadedMap(h, dst, prefixes)
  {
    var prefix := MapPrefix(prefixes);
    LoadEnds(h, dst, prefix);
    out := dst;
    var todo := h.Keys;
    while todo != {}
      invariant todo <= h.Keys && out == PartlyLoaded(h, todo, dst, prefix)
    {
      var key :| key in todo;
      LoadStep(h, todo, key, dst, prefix);
      if prefix <= key {
        out := Map(Entries(out)[key[|prefix|..] := h[key]]);
      }
      todo := todo - {key};
    }
  }

  /** One turn of the loop over the struct's fields. */
  method LoadStructField(f: Field, h: Hash, dst: Value, prefixes: seq<string>) returns (r: Result<Value, Error>)
    requires Fits(f, dst)
    ensures r == LoadField(f, h, dst, prefixes)
    decreases f, 0
  {
    r := Success(dst);
    match f {
      case Untouched =>
      case ExpandOther(_) => r := Failure(CannotExpand);
      case Leaf(name, _, kind) =>
        var key := Key(prefixes, name);
        if key in h {
          r := LoadLeaf(kind, h[key], dst);
        }
      case ExpandMap(name, _) =>
        var m := LoadMap(h, dst, prefixes + [name]);
        r := Success(m);
      case ExpandStruct(name, _, _, sub) =>
        if !dst.NilPtr? {
          var inner := LoadStruct(sub, h, dst.fields, prefixes + [name]);
          r := match inner case Failure(e) => Failure(e) case Success(vs) => Success(Struct(vs));
        }
    }
  }

  /** The fields up to the i-th one, which comes last. */
  lemma {:induction false} LoadsOneMore(fs: seq<Field>, h: Hash, dst: seq<Value>, prefixes: seq<string>, i: nat)
    requires FitsAll(fs, dst) && i < |fs| && LoadFields(fs[..i], h, dst[..i], prefixes).Success?
    ensures var own := LoadField(fs[i], h, dst[i], prefixes);
      LoadFields(fs[..i + 1], h, dst[..i + 1], prefixes)
      == if own.Failure? then Failure(own.error)
         else Success(LoadFields(fs[..i], h, dst[..i], prefixes).value + [own.value])
  {
    assert fs[..i + 1][..i] == fs[..i] && dst[..i + 1][..i] == dst[..i];
  }

  method LoadStruct(fs: seq<Field>, h: Hash, dst: seq<Value>, prefixes: seq<string>)
      returns (r: Result<seq<Value>, Error>)
    requires FitsAll(fs, dst)
    ensures r == LoadFields(fs, h, dst, prefixes)
    decreases fs, 1
  {
    var out := dst;
    for i := 0 to |fs|
      invariant |out| == |dst| && out[i..] == dst[i..]
      invariant LoadFields(fs[..i], h, dst[..i], prefixes) == Success(out[..i])
    {
      assert out[i] == out[i..][0] == dst[i..][0] == dst[i];
      LoadsOneMore(fs, h, dst, prefixes, i);
      var own := LoadStructField(fs[i], h, out[i], prefixes);
      if own.Failure? {
        LoadErrorIsFinal(fs, h, dst, prefixes, i + 1);
        return Failure(own.error);
      }
      assert out[i + 1..] == out[i..][1..] && dst[i + 1..] == dst[i..][1..];
      out := out[i := own.value];
      assert out[..i + 1] == out[..i] + [own.value];
    }
    assert fs[..|fs|] == fs && dst[..|dst|] == dst && out[..|out|] == out;
    r := Success(out);
  }
}
