/** What Go's zero value is, said of values alone, and what the codec makes of it: which structs
    `omitempty` leaves out, and the destinations into which records come back. */
module ZeroValues {
  import opened Wrappers
  import opened Codec
  import opened RoundTrip

  /** Empty, false, 0, nil, or a struct of such; an unexpanded struct is compared with the text of its zero. */
  predicate IsZero(f: Field, v: Value)
    decreases v
  {
    match v
    case Opaque(id) => id == 0
    case Str(s) => s == ""
    case Strs(ss) => ss == []
    case Bool(b) => b == false
    case Int(i) => i == 0
    case Uint(u) => u == 0
    case Blob(text) => f.Leaf? && f.kind.KStruct? && text == f.kind.zero
    case NilMap => true
    case Map(_) => false
    case NilPtr => true
    case Struct(vs) => f.ExpandStruct? && !f.pointer && AllZero(f.sub, vs)
  }

  predicate AllZero(fs: seq<Field>, vs: seq<Value>)
    decreases vs
  {
    |fs| == |vs| && forall i :: 0 <= i < |vs| ==> IsZero(fs[i], vs[i])
  }

  /** The zero value is the one value that is zero. */
  lemma {:induction false} ZeroExactly(f: Field, v: Value)
    requires Fits(f, v)
    ensures v == Zero(f) <==> IsZero(f, v)
    decreases f, 0
  {
    match f
    case Leaf(_, _, kind) =>
      match kind { case KString => case KStrings => case KBool => case KInt => case KUint => case KStruct(_) => }
    case ExpandStruct(_, _, pointer, sub) =>
      if v.Struct? {
        ZerosExactly(sub, v.fields);
      }
    case _ =>
  }

  lemma {:induction false} ZerosExactly(fs: seq<Field>, vs: seq<Value>)
    requires FitsAll(fs, vs)
    ensures vs == Zeros(fs) <==> AllZero(fs, vs)
    decreases fs, 1
  {
    if fs == [] {
    } else {
      var n := |fs| - 1;
      ZerosExactly(fs[..n], vs[..n]);
      ZeroExactly(fs[n], vs[n]);
      SnocEquality(Zeros(fs[..n]), Zero(fs[n]), vs);
      assert AllZero(fs, vs) <==> AllZero(fs[..n], vs[..n]) && IsZero(fs[n], vs[n]);
    }
  }

  // ---------------------------------------------------------------- what is left out

  /** An expanded struct tagged `omitempty` is left out when it is zero, and saved like any other when not. */
  lemma {:induction false} OmittedExactlyWhenZero(f: Field, vs: seq<Value>, prefixes: seq<string>)
    requires f.ExpandStruct? && f.omitEmpty && Comparable(f.sub) && FitsAll(f.sub, vs)
    ensures SaveField(f, Struct(vs), prefixes) ==
      if AllZero(f.sub, vs) then Success(map[]) else SaveFields(f.sub, vs, prefixes + [f.name])
  {
    ZerosExactly(f.sub, vs);
  }

  /** A field that writes a key whenever it is not zero. */
  predicate Visible(f: Field)
    decreases f
  {
    match f
    case Leaf(name, _, kind) => name != "" && !kind.KStrings? && !kind.KStruct?
    case ExpandStruct(_, _, pointer, sub) => !pointer && forall i :: 0 <= i < |sub| ==> Visible(sub[i])
    case _ => false
  }

  lemma {:induction false} VisibleWrites(f: Field, v: Value, prefixes: seq<string>)
    requires Fits(f, v) && Visible(f) && !IsZero(f, v) && SaveField(f, v, prefixes).Success?
    ensures SaveField(f, v, prefixes).value != map[]
    decreases f
  {
    match f
    case Leaf(name, _, kind) =>
      assert Printed(v) != "";
      assert Key(prefixes, name) in SaveField(f, v, prefixes).value;
    case ExpandStruct(name, omit, _, sub) =>
      ZerosExactly(sub, v.fields);
      var i :| 0 <= i < |sub| && !IsZero(sub[i], v.fields[i]);
      SavedParts(sub, v.fields, prefixes + [name], i);
      VisibleWrites(sub[i], v.fields[i], prefixes + [name]);
      var k :| k in SaveField(sub[i], v.fields[i], prefixes + [name]).value;
      assert k in SaveFields(sub, v.fields, prefixes + [name]).value;
  }

  lemma {:induction false} SavedParts(fs: seq<Field>, vs: seq<Value>, prefixes: seq<string>, i: nat)
    requires FitsAll(fs, vs) && i < |fs| && SaveFields(fs, vs, prefixes).Success?
    ensures SaveField(fs[i], vs[i], prefixes).Success?
    ensures SaveField(fs[i], vs[i], prefixes).value.Keys <= SaveFields(fs, vs, prefixes).value.Keys
    decreases |fs|
  {
    var n := |fs| - 1;
    if i < n {
      SavedParts(fs[..n], vs[..n], prefixes, i);
    }
  }

  /** So a struct of visible fields tagged `omitempty` writes nothing if and only if it is zero. */
  lemma {:induction false} WritesNothingExactlyWhenZero(f: Field, vs: seq<Value>, prefixes: seq<string>)
    requires f.ExpandStruct? && f.omitEmpty && !f.pointer && Comparable(f.sub) && FitsAll(f.sub, vs) && Visible(f)
    requires SaveField(f, Struct(vs), prefixes).Success?
    ensures SaveField(f, Struct(vs), prefixes) == Success(map[]) <==> AllZero(f.sub, vs)
  {
    OmittedExactlyWhenZero(f, vs, prefixes);
    if !AllZero(f.sub, vs) {
      VisibleWrites(f, Struct(vs), prefixes);
    }
  }

  // ---------------------------------------------------------------- zero destinations

  /** A zero destination for `v`, with a zero pointee wherever `v` has one. */
  predicate ZeroFor(f: Field, v: Value, dst: Value)
    decreases v
  {
    if f.ExpandStruct? && v.Struct? then dst.Struct? && AllZeroFor(f.sub, v.fields, dst.fields) else IsZero(f, dst)
  }

  predicate AllZeroFor(fs: seq<Field>, vs: seq<Value>, dst: seq<Value>)
    decreases vs
  {
    |fs| == |vs| == |dst| && forall i :: 0 <= i < |vs| ==> ZeroFor(fs[i], vs[i], dst[i])
  }

  lemma {:induction false} ZeroForIsBlank(f: Field, v: Value, dst: Value)
    requires Fits(f, v) && Fits(f, dst)
    ensures ZeroFor(f, v, dst) <==> dst == Blank(f, v)
    decreases f, 0
  {
    if f.ExpandStruct? && v.Struct? {
      if dst.Struct? {
        AllZeroForIsBlank(f.sub, v.fields, dst.fields);
      }
    } else {
      ZeroExactly(f, dst);
    }
  }

  lemma {:induction false} AllZeroForIsBlank(fs: seq<Field>, vs: seq<Value>, dst: seq<Value>)
    requires FitsAll(fs, vs) && FitsAll(fs, dst)
    ensures AllZeroFor(fs, vs, dst) <==> dst == Blanks(fs, vs)
    decreases fs, 1
  {
    if fs == [] {
    } else {
      var n := |fs| - 1;
      AllZeroForIsBlank(fs[..n], vs[..n], dst[..n]);
      ZeroForIsBlank(fs[n], vs[n], dst[n]);
      SnocEquality(Blanks(fs[..n], vs[..n]), Blank(fs[n], vs[n]), dst);
      assert AllZeroFor(fs, vs, dst) <==> AllZeroFor(fs[..n], vs[..n], dst[..n]) && ZeroFor(fs[n], vs[n], dst[n]);
    }
  }

  /** The round trip into a zero destination: a saved record comes back if and only if it is in the domain. */
  lemma {:induction false} RoundTripIntoZeroExactly(fs: seq<Field>, vs: seq<Value>, dst: seq<Value>)
    requires FitsAll(fs, vs) && FitsAll(fs, dst) && WellFormed(fs, []) && SaveFields(fs, vs, []).Success?
    requires AllZeroFor(fs, vs, dst)
    ensures LoadFields(fs, SaveFields(fs, vs, []).value, dst, []) == Success(vs) <==> AllInDomain(fs, vs)
  {
    AllZeroForIsBlank(fs, vs, dst);
    RoundTripExactlyInDomain(fs, vs);
  }

  /** Of a leaf that leaves no trace, only the zero value is in the domain. */
  lemma {:induction false} UnsavedInDomainExactlyWhenZero(f: Field, v: Value)
    requires f.Leaf? && Fits(f, v) && (Unsaved(f.name, f.omitEmpty, v) || f.kind.KStruct?)
    ensures InDomain(f, v) <==> IsZero(f, v)
  {
    ZeroExactly(f, v);
  }
}
