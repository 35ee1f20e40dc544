/**
 * The destination of a decode, in place of Go's reflection: a value knows its
 * own kind, a record's fields carry their `ltm:"..."` tags in declaration order
 * (an untagged field has the tag ""), and a list or map knows its element type
 * so that fresh zero elements can be made for it.
 */
module Dest {

  import opened IntParse

  datatype Type =
    | TString
    | TInt
    | TOther                                  // bool, float, pointer, ...: never written by the decoder
    | TStruct(fieldTypes: seq<FieldType>)
    | TSlice(elem: Type)
    | TMap(elem: Type)                        // keyed by string

  datatype FieldType = FieldType(tag: string, typ: Type)

  datatype Value =
    | VString(s: string)
    | VInt(n: int)
    | VOther
    | VStruct(fields: seq<Field>)
    | VSlice(elem: Type, items: seq<Value>)
    | VMap(elem: Type, entries: map<string, Value>)

  datatype Field = Field(tag: string, val: Value)

  function TypeOf(v: Value): Type {
    match v
    case VString(_) => TString
    case VInt(_) => TInt
    case VOther => TOther
    case VStruct(fs) => TStruct(seq(|fs|, k requires 0 <= k < |fs| => FieldType(fs[k].tag, TypeOf(fs[k].val))))
    case VSlice(et, _) => TSlice(et)
    case VMap(et, _) => TMap(et)
  }

  /** Every element is of its container's element type, and every int fits in 64 bits. */
  predicate WellTyped(v: Value) {
    match v
    case VString(_) => true
    case VInt(n) => MinInt64 <= n <= MaxInt64
    case VOther => true
    case VStruct(fs) => forall k | 0 <= k < |fs| :: WellTyped(fs[k].val)
    case VSlice(et, items) => forall k | 0 <= k < |items| :: TypeOf(items[k]) == et && WellTyped(items[k])
    case VMap(et, m) => forall key | key in m :: TypeOf(m[key]) == et && WellTyped(m[key])
  }

  /** The zero value of a type: the Go `reflect.New(t).Elem()`. */
  function Zero(t: Type): (v: Value)
    ensures TypeOf(v) == t && WellTyped(v)
  {
    match t
    case TString => VString("")
    case TInt => VInt(0)
    case TOther => VOther
    case TStruct(fts) =>
      var fs := seq(|fts|, k requires 0 <= k < |fts| => Field(fts[k].tag, Zero(fts[k].typ)));
      assert TypeOf(VStruct(fs)) == t by {
        assert forall k | 0 <= k < |fts| :: FieldType(fs[k].tag, TypeOf(fs[k].val)) == fts[k];
      }
      VStruct(fs)
    case TSlice(et) => VSlice(et, [])
    case TMap(et) => VMap(et, map[])
  }

  /** Same length and the same tag at every position. */
  predicate SameTags(fs: seq<Field>, gs: seq<Field>) {
    |fs| == |gs| && forall k | 0 <= k < |fs| :: fs[k].tag == gs[k].tag
  }

  /** Equal record types have the same tags. */
  lemma StructTypeTags(fs: seq<Field>, gs: seq<Field>)
    requires TypeOf(VStruct(fs)) == TypeOf(VStruct(gs))
    ensures SameTags(fs, gs)
  {
    var a := TypeOf(VStruct(fs)).fieldTypes;
    var b := TypeOf(VStruct(gs)).fieldTypes;
    assert |fs| == |a| == |b| == |gs|;
    forall k | 0 <= k < |fs| ensures fs[k].tag == gs[k].tag {
      assert a[k] == b[k];
    }
  }

  /** Replacing one field by a value of the same type keeps the record's type. */
  lemma UpdateKeepsType(fs: seq<Field>, k: nat, v: Value)
    requires k < |fs| && TypeOf(v) == TypeOf(fs[k].val)
    ensures TypeOf(VStruct(fs[k := Field(fs[k].tag, v)])) == TypeOf(VStruct(fs))
  {
    var gs := fs[k := Field(fs[k].tag, v)];
    var a := TypeOf(VStruct(fs)).fieldTypes;
    var b := TypeOf(VStruct(gs)).fieldTypes;
    assert |a| == |b|;
    forall j | 0 <= j < |a| ensures a[j] == b[j] {
    }
  }

  /** Only a record has a record type. */
  lemma StructTypeIsStruct(v: Value, w: Value)
    requires TypeOf(v) == TypeOf(w) && w.VStruct?
    ensures v.VStruct?
  {
  }
}
