/**
 * What the decoder promises: trimming, exact first-match key selection,
 * last-value-wins for repeated keys, list and map construction from
 * grandchildren, the entity's two passes and its name/component fallback,
 * and integer coercion.
 */
module DecodeProperties {

  import opened Wrappers
  import opened Dest
  import opened IntParse
  import opened Decode

  // ---------------------------------------------------------------- trimming

  /**
   * Unmarshal scans `data` with every leading and trailing newline removed
   * and nothing else: whenever the first `a` and the last `b` characters are
   * newlines and what lies between is empty or neither starts nor ends with a
   * newline, the trimmed text is exactly what lies between.
   */
  lemma TrimNewlinesSpec(s: string, a: nat, b: nat)
    requires a + b <= |s|
    requires forall j | 0 <= j < a :: s[j] == '\n'
    requires forall j | |s| - b <= j < |s| :: s[j] == '\n'
    requires a + b == |s| || (s[a] != '\n' && s[|s| - b - 1] != '\n')
    ensures TrimNewlines(s) == s[a..|s| - b]
  {
    var x := TrimStart(s, 0, |s|);
    if a + b < |s| {
      assert x == a;
      assert TrimEnd(s, x, |s|) == |s| - b;
    } else {
      assert x == |s|;
    }
  }

  /** Trimming twice is trimming once. */
  lemma TrimIdempotent(s: string)
    ensures TrimNewlines(TrimNewlines(s)) == TrimNewlines(s)
  {
    var t := TrimNewlines(s);
    TrimNewlinesSpec(t, 0, 0);
    assert t[0..|t|] == t;
  }

  /** Text framed by newlines, neither starting nor ending with one itself, is what trimming leaves. */
  lemma TrimFramed(pre: string, t: string, post: string)
    requires forall j | 0 <= j < |pre| :: pre[j] == '\n'
    requires forall j | 0 <= j < |post| :: post[j] == '\n'
    requires t == [] || (t[0] != '\n' && t[|t| - 1] != '\n')
    ensures TrimNewlines(pre + t + post) == t
  {
    var s := pre + t + post;
    assert s[|pre|..|s| - |post|] == t;
    forall j | |s| - |post| <= j < |s| ensures s[j] == '\n' {
      assert s[j] == post[j - |pre| - |t|];
    }
    if t != [] {
      assert s[|pre|] == t[0] && s[|s| - |post| - 1] == t[|t| - 1];
    }
    TrimNewlinesSpec(s, |pre|, |post|);
  }

  /** A document framed by blank lines loses exactly those blank lines and keeps its inner newline. */
  lemma TrimExample()
    ensures TrimNewlines("\n\n" + "ltm node a {\n}" + "\n") == "ltm node a {\n}"
  {
    var t := "ltm node a {\n}";
    assert t[0] == 'l' && t[|t| - 1] == '}';
    TrimFramed("\n\n", t, "\n");
  }

  // ------------------------------------------------------------ field lookup

  /** Field lookup sees only the tags. */
  lemma {:induction false} LookupSameTags(tag: string, fs: seq<Field>, gs: seq<Field>)
    requires SameTags(fs, gs)
    ensures LookupField(tag, fs) == LookupField(tag, gs)
  {
    if fs != [] && fs[0].tag != tag {
      assert SameTags(fs[1..], gs[1..]);
      LookupSameTags(tag, fs[1..], gs[1..]);
    }
  }

  /** Dots are not split: "status.status-reason" selects only a field with exactly that tag. */
  lemma DottedKeyIsOpaque()
    ensures LookupField("status.status-reason", [Field("status", VString("")), Field("status.status-reason", VString(""))]) == Some(1)
    ensures LookupField("status.status-reason", [Field("status", VString("")), Field("status-reason", VString(""))]) == None
  {
  }

  // ---------------------------------------------------------------- key node

  /**
   * A key decoded into a record changes at most the first field whose tag is
   * the key text, and only when the key has a value; that field receives the
   * value decoded into it.  A key decoded into anything but a record does nothing.
   */
  lemma KeyNodeSelectsFirstMatch(n: Node, out: Value)
    requires Plain(n) && n.kind == KeyNode
    ensures var r := UnmarshalNode(n, out);
            && (!out.VStruct? || |n.children| == 0 || LookupField(n.value, out.fields).None? ==> r == out)
            && (out.VStruct? ==>
                  && r.VStruct? && SameTags(r.fields, out.fields)
                  && forall j | 0 <= j < |out.fields| ::
                       if LookupField(n.value, out.fields) == Some(j) && |n.children| > 0
                       then assert Plain(n.children[0]); r.fields[j].val == UnmarshalNode(n.children[0], out.fields[j].val)
                       else r.fields[j] == out.fields[j])
  {
    var r := UnmarshalNode(n, out);
    if out.VStruct? {
      StructTypeIsStruct(r, out);
      StructTypeTags(r.fields, out.fields);
    }
  }

  /** The bare key `status.status-reason` leaves its string field at "". */
  lemma BareKeyLeavesDefault(fs: seq<Field>)
    ensures var key := Node(KeyNode, "status.status-reason", "", []);
            UnmarshalNode(key, VStruct(fs)) == VStruct(fs)
  {
  }

  // ------------------------------------------------------- block into record

  /** A block of keys whose values, when present, are scalars. */
  predicate FlatBlock(n: Node) {
    && Plain(n)
    && forall k | 0 <= k < |n.children| ::
         && n.children[k].kind == KeyNode
         && (|n.children[k].children| > 0 ==> n.children[k].children[0].kind == ScalarNode)
  }

  /** The scalar of the last key, from child `i` on, that selects field `j` and has a value. */
  function LastScalarFor(n: Node, i: nat, fs: seq<Field>, j: nat): Option<Node>
    requires i <= |n.children|
    decreases |n.children| - i
  {
    if i == |n.children| then None
    else
      match LastScalarFor(n, i + 1, fs, j)
      case Some(s) => Some(s)
      case None =>
        var c := n.children[i];
        if LookupField(c.value, fs) == Some(j) && |c.children| > 0 then Some(c.children[0]) else None
  }

  lemma {:induction false} LastScalarSameTags(n: Node, i: nat, fs: seq<Field>, gs: seq<Field>, j: nat)
    requires i <= |n.children| && SameTags(fs, gs)
    ensures LastScalarFor(n, i, fs, j) == LastScalarFor(n, i, gs, j)
    decreases |n.children| - i
  {
    if i < |n.children| {
      LastScalarSameTags(n, i + 1, fs, gs, j);
      LookupSameTags(n.children[i].value, fs, gs);
    }
  }

  /** Equal record types give equal field types. */
  lemma FieldTypeKept(fs: seq<Field>, gs: seq<Field>, j: nat)
    requires TypeOf(VStruct(fs)) == TypeOf(VStruct(gs)) && j < |fs|
    ensures |gs| == |fs| && TypeOf(gs[j].val) == TypeOf(fs[j].val)
  {
    assert TypeOf(VStruct(fs)).fieldTypes[j] == TypeOf(VStruct(gs)).fieldTypes[j];
  }

  /**
   * A flat block decoded into a record: a string or int field ends with the
   * value of the LAST key that selects it (a repeated key's last value wins),
   * and keeps its value when no key with a value selects it (bare keys and
   * unmatched keys change nothing).
   */
  lemma {:induction false} LastKeyWins(n: Node, i: nat, fs: seq<Field>, j: nat)
    requires FlatBlock(n) && i <= |n.children| && j < |fs|
    requires fs[j].val.VString? || fs[j].val.VInt?
    ensures var r := DecodeChildren(n, i, VStruct(fs));
            && r.VStruct? && |r.fields| == |fs|
            && r.fields[j].val == match LastScalarFor(n, i, fs, j)
                                  case None => fs[j].val
                                  case Some(s) => DecodeScalarNode(s, fs[j].val)
    decreases |n.children| - i
  {
    var r := DecodeChildren(n, i, VStruct(fs));
    StructTypeIsStruct(r, VStruct(fs));
    FieldTypeKept(fs, r.fields, j);
    if i < |n.children| {
      var c := n.children[i];
      var mid := UnmarshalNode(c, VStruct(fs));
      assert r == DecodeChildren(n, i + 1, mid);
      FlatKeyStep(c, fs, j);
      LastKeyWins(n, i + 1, mid.fields, j);
      LastScalarSameTags(n, i + 1, fs, mid.fields, j);
      var later := LastScalarFor(n, i + 1, fs, j);
      if later.Some? {
        ScalarIgnoresOld(later.value, mid.fields[j].val, fs[j].val);
      }
    }
  }

  /** One key of a flat block, decoded into a record, as seen by field `j`. */
  lemma FlatKeyStep(c: Node, fs: seq<Field>, j: nat)
    requires Plain(c) && c.kind == KeyNode && j < |fs|
    requires |c.children| > 0 ==> c.children[0].kind == ScalarNode
    ensures var mid := UnmarshalNode(c, VStruct(fs));
            && mid.VStruct? && SameTags(mid.fields, fs)
            && TypeOf(mid.fields[j].val) == TypeOf(fs[j].val)
            && mid.fields[j].val == if LookupField(c.value, fs) == Some(j) && |c.children| > 0
                                    then DecodeScalarNode(c.children[0], fs[j].val)
                                    else fs[j].val
  {
    var mid := UnmarshalNode(c, VStruct(fs));
    KeyNodeSelectsFirstMatch(c, VStruct(fs));
    FieldTypeKept(fs, mid.fields, j);
  }

  /** A scalar decoded into a string or int field does not depend on the field's old value. */
  lemma ScalarIgnoresOld(s: Node, a: Value, b: Value)
    requires TypeOf(a) == TypeOf(b) && (a.VString? || a.VInt?)
    ensures DecodeScalarNode(s, a) == DecodeScalarNode(s, b)
  {
  }

  /** Every string field of a flat body receives the raw text of the last matching key, verbatim. */
  lemma FlatStringField(n: Node, fs: seq<Field>, j: nat, last: nat)
    requires FlatBlock(n) && n.kind == StructNode && j < |fs| && fs[j].val.VString?
    requires last < |n.children| && LookupField(n.children[last].value, fs) == Some(j)
    requires |n.children[last].children| > 0
    requires forall k | last < k < |n.children| :: LookupField(n.children[k].value, fs) != Some(j)
    ensures var r := UnmarshalNode(n, VStruct(fs));
            r.VStruct? && |r.fields| == |fs| && r.fields[j].val == VString(n.children[last].children[0].value)
  {
    assert UnmarshalNode(n, VStruct(fs)) == DecodeChildren(n, 0, VStruct(fs));
    LastKeyWins(n, 0, fs, j);
    LastScalarAt(n, 0, fs, j, last);
  }

  lemma {:induction false} LastScalarAt(n: Node, i: nat, fs: seq<Field>, j: nat, last: nat)
    requires i <= last < |n.children| && LookupField(n.children[last].value, fs) == Some(j)
    requires |n.children[last].children| > 0
    requires forall k | last < k < |n.children| :: LookupField(n.children[k].value, fs) != Some(j)
    ensures LastScalarFor(n, i, fs, j) == Some(n.children[last].children[0])
    decreases |n.children| - i
  {
    if i < last {
      LastScalarAt(n, i + 1, fs, j, last);
    } else {
      LastScalarNone(n, last + 1, fs, j);
    }
  }

  lemma {:induction false} LastScalarNone(n: Node, i: nat, fs: seq<Field>, j: nat)
    requires i <= |n.children|
    requires forall k | i <= k < |n.children| :: LookupField(n.children[k].value, fs) != Some(j)
    ensures LastScalarFor(n, i, fs, j) == None
    decreases |n.children| - i
  {
    if i < |n.children| {
      LastScalarNone(n, i + 1, fs, j);
    }
  }

  // ------------------------------------------------------------ locality

  /**
   * Decoding a node into a record decides each field from that field's own
   * value and the tags alone.
   */
  lemma {:induction false} StructLocal(n: Node, fs: seq<Field>, gs: seq<Field>, j: nat)
    requires Plain(n) && SameTags(fs, gs) && j < |fs| && fs[j] == gs[j]
    ensures var a := UnmarshalNode(n, VStruct(fs));
            var b := UnmarshalNode(n, VStruct(gs));
            && a.VStruct? && b.VStruct? && SameTags(a.fields, fs) && SameTags(b.fields, gs)
            && a.fields[j] == b.fields[j]
    decreases n, 1
  {
    var a := UnmarshalNode(n, VStruct(fs));
    var b := UnmarshalNode(n, VStruct(gs));
    StructTypeIsStruct(a, VStruct(fs));
    StructTypeIsStruct(b, VStruct(gs));
    StructTypeTags(a.fields, fs);
    StructTypeTags(b.fields, gs);
    match n.kind
    case StructNode =>
      ChildrenLocal(n, 0, fs, gs, j);
    case KeyNode =>
      LookupSameTags(n.value, fs, gs);
      KeyNodeSelectsFirstMatch(n, VStruct(fs));
      KeyNodeSelectsFirstMatch(n, VStruct(gs));
    case ScalarNode =>
  }

  lemma {:induction false} ChildrenLocal(n: Node, i: nat, fs: seq<Field>, gs: seq<Field>, j: nat)
    requires Plain(n) && i <= |n.children| && SameTags(fs, gs) && j < |fs| && fs[j] == gs[j]
    ensures var a := DecodeChildren(n, i, VStruct(fs));
            var b := DecodeChildren(n, i, VStruct(gs));
            && a.VStruct? && b.VStruct? && SameTags(a.fields, fs) && SameTags(b.fields, gs)
            && a.fields[j] == b.fields[j]
    decreases n, 0, |n.children| - i
  {
    if i < |n.children| {
      var c := n.children[i];
      assert Plain(c);
      StructLocal(c, fs, gs, j);
      var a := UnmarshalNode(c, VStruct(fs));
      var b := UnmarshalNode(c, VStruct(gs));
      ChildrenLocal(n, i + 1, a.fields, b.fields, j);
    } else {
      assert DecodeChildren(n, i, VStruct(fs)) == VStruct(fs);
    }
  }

  /** Keys that never select field `j` leave it as it was. */
  lemma {:induction false} KeysMissField(n: Node, i: nat, fs: seq<Field>, j: nat)
    requires Plain(n) && i <= |n.children| && j < |fs|
    requires forall k | i <= k < |n.children| ::
               n.children[k].kind == KeyNode && LookupField(n.children[k].value, fs) != Some(j)
    ensures var r := DecodeChildren(n, i, VStruct(fs));
            r.VStruct? && SameTags(r.fields, fs) && r.fields[j] == fs[j]
    decreases |n.children| - i
  {
    var r := DecodeChildren(n, i, VStruct(fs));
    StructTypeIsStruct(r, VStruct(fs));
    StructTypeTags(r.fields, fs);
    if i < |n.children| {
      var c := n.children[i];
      KeyNodeSelectsFirstMatch(c, VStruct(fs));
      var mid := UnmarshalNode(c, VStruct(fs));
      forall k | i + 1 <= k < |n.children|
        ensures n.children[k].kind == KeyNode && LookupField(n.children[k].value, mid.fields) != Some(j)
      {
        LookupSameTags(n.children[k].value, fs, mid.fields);
      }
      KeysMissField(n, i + 1, mid.fields, j);
    }
  }

  // ---------------------------------------------------------------- entity

  /** The first pass: each record-kind field from `i` on receives the body decoded into it; other fields stay. */
  lemma {:induction false} FillEmbeddedSpec(n: Node, fs: seq<Field>, i: nat)
    requires n.kind == LtmNode && |n.children| > 0 && Plain(n.children[0]) && i <= |fs|
    ensures var r := FillEmbedded(n, fs, i);
            && SameTags(r, fs)
            && forall k | 0 <= k < |fs| ::
                 r[k].val == if i <= k && fs[k].val.VStruct? then UnmarshalNode(n.children[0], fs[k].val) else fs[k].val
    decreases |fs| - i
  {
    var r := FillEmbedded(n, fs, i);
    StructTypeTags(r, fs);
    if i < |fs| {
      var f := fs[i];
      var v := if f.val.VStruct? then UnmarshalNode(n.children[0], f.val) else f.val;
      FillEmbeddedSpec(n, fs[i := Field(f.tag, v)], i + 1);
    }
  }

  /**
   * The first pass composes a base record with extension fields over one
   * body: an embedded record-kind field that no body key selects (such as an
   * untagged embedded struct) ends as the body decoded into it.
   */
  lemma EmbeddedFromBody(n: Node, out: Value, j: nat)
    requires n.kind == LtmNode && Decodable(n, out) && j < |out.fields|
    requires out.fields[j].val.VStruct? && n.children[0].kind == StructNode
    requires forall k | 0 <= k < |n.children[0].children| ::
               && n.children[0].children[k].kind == KeyNode
               && LookupField(n.children[0].children[k].value, out.fields) != Some(j)
    ensures var r := FillFromBody(n, out);
            |r.fields| == |out.fields| && r.fields[j].val == UnmarshalNode(n.children[0], out.fields[j].val)
  {
    var body := n.children[0];
    var fs := out.fields;
    var emb := FillEmbedded(n, fs, 0);
    FillEmbeddedSpec(n, fs, 0);
    forall k | 0 <= k < |body.children|
      ensures body.children[k].kind == KeyNode && LookupField(body.children[k].value, emb) != Some(j)
    {
      LookupSameTags(body.children[k].value, fs, emb);
    }
    KeysMissField(body, 0, emb, j);
    assert FillFromBody(n, out) == UnmarshalNode(body, VStruct(emb));
    assert UnmarshalNode(body, VStruct(emb)) == DecodeStructNode(body, VStruct(emb));
  }

  /**
   * The second pass: every field that is not a record ends as decoding the
   * body into the destination itself would leave it.
   */
  lemma OwnFieldsFromBody(n: Node, out: Value, j: nat)
    requires n.kind == LtmNode && Decodable(n, out) && j < |out.fields|
    requires !out.fields[j].val.VStruct?
    ensures var r := FillFromBody(n, out);
            var own := UnmarshalNode(n.children[0], out);
            && own.VStruct? && SameTags(own.fields, out.fields) && SameTags(r.fields, out.fields)
            && r.fields[j] == own.fields[j]
  {
    var body := n.children[0];
    var fs := out.fields;
    var emb := FillEmbedded(n, fs, 0);
    FillEmbeddedSpec(n, fs, 0);
    assert emb[j] == fs[j];
    StructLocal(body, emb, fs, j);
  }

  /**
   * The name and component slots: the first direct field tagged "name"
   * (resp. "component") receives the entity's name (resp. component) exactly
   * when it is a string field still holding "" after the body; a non-empty
   * value from the body is kept, and no other field changes.
   */
  lemma EntityNameFallback(n: Node, out: Value)
    requires n.kind == LtmNode && Decodable(n, out)
    ensures var f := FillFromBody(n, out).fields;
            var r := DecodeEntityNode(n, out);
            var nameSlot := LookupField("name", f);
            var compSlot := LookupField("component", f);
            && r.VStruct? && SameTags(r.fields, f)
            && forall j | 0 <= j < |f| ::
                 r.fields[j].val ==
                   if nameSlot == Some(j) && f[j].val == VString("") then VString(n.value)
                   else if compSlot == Some(j) && f[j].val == VString("") then VString(n.component)
                   else f[j].val
  {
    var filled := FillFromBody(n, out);
    assert DecodeEntityNode(n, out) == SetIfEmpty(SetIfEmpty(VStruct(filled.fields), "name", n.value), "component", n.component);
    SlotsFilled(filled.fields, n.value, n.component);
  }

  /** The two slot assignments that end an entity, on the record the body produced. */
  lemma SlotsFilled(f: seq<Field>, name: string, component: string)
    ensures var r := SetIfEmpty(SetIfEmpty(VStruct(f), "name", name), "component", component);
            var nameSlot := LookupField("name", f);
            var compSlot := LookupField("component", f);
            && r.VStruct? && SameTags(r.fields, f)
            && forall j | 0 <= j < |f| ::
                 r.fields[j].val ==
                   if nameSlot == Some(j) && f[j].val == VString("") then VString(name)
                   else if compSlot == Some(j) && f[j].val == VString("") then VString(component)
                   else f[j].val
  {
    var named := SetIfEmpty(VStruct(f), "name", name);
    var r := SetIfEmpty(named, "component", component);
    SetIfEmptySpec(VStruct(f), "name", name);
    SetIfEmptySpec(named, "component", component);
    LookupSameTags("component", f, named.fields);
    var nameSlot := LookupField("name", f);
    var compSlot := LookupField("component", f);
    forall j | 0 <= j < |f|
      ensures r.fields[j].val ==
                if nameSlot == Some(j) && f[j].val == VString("") then VString(name)
                else if compSlot == Some(j) && f[j].val == VString("") then VString(component)
                else f[j].val
    {
      if nameSlot == Some(j) {
        assert f[j].tag == "name" != "component";
      }
    }
  }

  /** SetIfEmpty changes only the first field with the tag, and only when it holds "". */
  lemma SetIfEmptySpec(out: Value, tag: string, s: string)
    requires out.VStruct?
    ensures var r := SetIfEmpty(out, tag, s);
            && r.VStruct? && SameTags(r.fields, out.fields)
            && forall j | 0 <= j < |out.fields| ::
                 r.fields[j].val == if LookupField(tag, out.fields) == Some(j) && out.fields[j].val == VString("")
                                    then VString(s) else out.fields[j].val
  {
    StructTypeTags(SetIfEmpty(out, tag, s).fields, out.fields);
  }

  /**
   * An entity with an empty body fills the empty name and component slots from
   * the entity line, as "ltm profile client-ssl wildcard.example.com_20191031-1"
   * gives the name "wildcard.example.com_20191031-1" and the component
   * "profile-client-ssl".
   */
  lemma ComponentFromEntityLine(name: string, component: string)
    ensures var body := Node(StructNode, "", "", []);
            var n := Node(LtmNode, name, component, [body]);
            var out := VStruct([Field("name", VString("")), Field("component", VString("")), Field("cert", VString(""))]);
            DecodeEntityNode(n, out) ==
              VStruct([Field("name", VString(name)), Field("component", VString(component)), Field("cert", VString(""))])
  {
    var n := Node(LtmNode, name, component, [Node(StructNode, "", "", [])]);
    var out := VStruct([Field("name", VString("")), Field("component", VString("")), Field("cert", VString(""))]);
    EmptyBodyKeeps(n, out.fields);
    EmptySlotsFilled(name, component);
  }

  /** An empty body leaves a record without record-kind fields as it was. */
  lemma EmptyBodyKeeps(n: Node, fs: seq<Field>)
    requires n.kind == LtmNode && n.children == [Node(StructNode, "", "", [])]
    requires forall k | 0 <= k < |fs| :: !fs[k].val.VStruct?
    ensures FillFromBody(n, VStruct(fs)) == VStruct(fs)
  {
    var body := n.children[0];
    FillEmbeddedSpec(n, fs, 0);
    var emb := FillEmbedded(n, fs, 0);
    assert emb == fs;
    assert FillFromBody(n, VStruct(fs)) == UnmarshalNode(body, VStruct(fs)) == DecodeChildren(body, 0, VStruct(fs));
  }

  lemma EmptySlotsFilled(name: string, component: string)
    ensures var out := VStruct([Field("name", VString("")), Field("component", VString("")), Field("cert", VString(""))]);
            SetIfEmpty(SetIfEmpty(out, "name", name), "component", component) ==
              VStruct([Field("name", VString(name)), Field("component", VString(component)), Field("cert", VString(""))])
  {
    var fs := [Field("name", VString("")), Field("component", VString("")), Field("cert", VString(""))];
    assert LookupField("name", fs) == Some(0);
    var named := SetIfEmpty(VStruct(fs), "name", name);
    assert named.fields == fs[0 := Field("name", VString(name))];
    assert LookupField("component", named.fields) == Some(1);
  }

  // ------------------------------------------------------------ block into list

  lemma {:induction false} SliceItemsAt(n: Node, i: nat, et: Type, k: nat)
    requires Plain(n) && i <= k < |n.children|
    ensures SliceItems(n, i, et)[k - i] == DecodeChildren(n.children[k], 0, Zero(et))
    decreases k - i
  {
    if i < k {
      SliceItemsAt(n, i + 1, et, k);
      ConsIndex(DecodeChildren(n.children[i], 0, Zero(et)), SliceItems(n, i + 1, et), k - i);
    }
  }

  lemma ConsIndex(x: Value, t: seq<Value>, j: nat)
    requires 0 < j <= |t|
    ensures ([x] + t)[j] == t[j - 1]
  {
  }

  /**
   * A block decoded into a list replaces the list: one element per child, in
   * order, element k being a fresh zero element filled from child k's own children.
   */
  lemma SliceBlock(n: Node, et: Type, items: seq<Value>)
    requires Plain(n) && n.kind == StructNode
    ensures var r := UnmarshalNode(n, VSlice(et, items));
            && r.VSlice? && r.elem == et && |r.items| == |n.children|
            && forall k | 0 <= k < |n.children| :: r.items[k] == DecodeChildren(n.children[k], 0, Zero(et))
  {
    var r := UnmarshalNode(n, VSlice(et, items));
    assert r == DecodeStructNode(n, VSlice(et, items)) == VSlice(et, SliceItems(n, 0, et));
    forall k | 0 <= k < |n.children|
      ensures SliceItems(n, 0, et)[k] == DecodeChildren(n.children[k], 0, Zero(et))
    {
      SliceItemsAt(n, 0, et, k);
    }
  }

  /** Decoding a node's children into a value depends on those children only, not on the node's own text or kind. */
  lemma {:induction false} ChildrenOnly(c: Node, d: Node, i: nat, out: Value)
    requires Plain(c) && Plain(d) && c.children == d.children && i <= |c.children|
    ensures DecodeChildren(c, i, out) == DecodeChildren(d, i, out)
    decreases |c.children| - i
  {
    if i < |c.children| {
      assert Plain(c.children[i]);
      ChildrenOnly(c, d, i + 1, UnmarshalNode(c.children[i], out));
    }
  }

  /**
   * The names of a list block's children are never written: two blocks whose
   * children differ only in their own text (and kind) give the same list,
   * whatever the list held before.
   */
  lemma SliceIgnoresNames(n: Node, m: Node, et: Type, a: seq<Value>, b: seq<Value>)
    requires Plain(n) && Plain(m) && n.kind == StructNode && m.kind == StructNode
    requires |n.children| == |m.children|
    requires forall k | 0 <= k < |n.children| :: n.children[k].children == m.children[k].children
    ensures UnmarshalNode(n, VSlice(et, a)) == UnmarshalNode(m, VSlice(et, b))
  {
    SliceBlock(n, et, a);
    SliceBlock(m, et, b);
    var x := UnmarshalNode(n, VSlice(et, a)).items;
    var y := UnmarshalNode(m, VSlice(et, b)).items;
    forall k | 0 <= k < |x| ensures x[k] == y[k] {
      assert Plain(n.children[k]) && Plain(m.children[k]);
      ChildrenOnly(n.children[k], m.children[k], 0, Zero(et));
    }
  }

  // ------------------------------------------------------------- block into map

  /** The children's texts from index `i` on. */
  function NamesFrom(n: Node, i: nat): set<string>
    requires i <= |n.children|
  {
    set k | i <= k < |n.children| :: n.children[k].value
  }

  /** Child k is the last child with its text. */
  predicate LastWithName(n: Node, k: nat)
    requires k < |n.children|
  {
    forall j | k < j < |n.children| :: n.children[j].value != n.children[k].value
  }

  lemma NamesStep(n: Node, i: nat)
    requires i < |n.children|
    ensures NamesFrom(n, i) == {n.children[i].value} + NamesFrom(n, i + 1)
  {
    forall x | x in NamesFrom(n, i) ensures x in {n.children[i].value} + NamesFrom(n, i + 1) {
      var k :| i <= k < |n.children| && n.children[k].value == x;
      if k > i {
        assert x in NamesFrom(n, i + 1);
      }
    }
  }

  lemma {:induction false} MapEntriesKeys(n: Node, i: nat, et: Type, acc: map<string, Value>)
    requires Plain(n) && i <= |n.children|
    requires forall key | key in acc :: TypeOf(acc[key]) == et && WellTyped(acc[key])
    ensures MapEntries(n, i, et, acc).Keys == acc.Keys + NamesFrom(n, i)
    decreases |n.children| - i
  {
    if i < |n.children| {
      var c := n.children[i];
      var acc' := acc[c.value := DecodeChildren(c, 0, Zero(et))];
      assert MapEntries(n, i, et, acc) == MapEntries(n, i + 1, et, acc');
      MapEntriesKeys(n, i + 1, et, acc');
      NamesStep(n, i);
    }
  }

  lemma {:induction false} MapEntriesSize(n: Node, i: nat, et: Type, acc: map<string, Value>)
    requires Plain(n) && i <= |n.children|
    requires forall key | key in acc :: TypeOf(acc[key]) == et && WellTyped(acc[key])
    ensures |MapEntries(n, i, et, acc)| <= |acc| + (|n.children| - i)
    decreases |n.children| - i
  {
    if i < |n.children| {
      var c := n.children[i];
      var acc' := acc[c.value := DecodeChildren(c, 0, Zero(et))];
      assert MapEntries(n, i, et, acc) == MapEntries(n, i + 1, et, acc');
      assert |acc'| <= |acc| + 1;
      MapEntriesSize(n, i + 1, et, acc');
    }
  }

  lemma {:induction false} MapEntriesValues(n: Node, i: nat, et: Type, acc: map<string, Value>)
    requires Plain(n) && i <= |n.children|
    requires forall key | key in acc :: TypeOf(acc[key]) == et && WellTyped(acc[key])
    ensures var r := MapEntries(n, i, et, acc);
            && (forall key | key in acc && key !in NamesFrom(n, i) :: key in r && r[key] == acc[key])
            && (forall k | i <= k < |n.children| && LastWithName(n, k) ::
                  n.children[k].value in r && r[n.children[k].value] == DecodeChildren(n.children[k], 0, Zero(et)))
    decreases |n.children| - i
  {
    if i < |n.children| {
      var c := n.children[i];
      var acc' := acc[c.value := DecodeChildren(c, 0, Zero(et))];
      var r := MapEntries(n, i, et, acc);
      assert r == MapEntries(n, i + 1, et, acc');
      MapEntriesValues(n, i + 1, et, acc');
      NamesStep(n, i);
      forall k | i <= k < |n.children| && LastWithName(n, k)
        ensures n.children[k].value in r && r[n.children[k].value] == DecodeChildren(n.children[k], 0, Zero(et))
      {
        if k == i {
          assert c.value !in NamesFrom(n, i + 1);
        }
      }
    }
  }

  /**
   * A block decoded into a map replaces the map: its keys are exactly the
   * children's texts, the entry under each text is a fresh zero element filled
   * from the LAST child with that text, and there are at most as many entries
   * as children.
   */
  lemma MapBlock(n: Node, et: Type, entries: map<string, Value>)
    requires Plain(n) && n.kind == StructNode
    ensures var r := UnmarshalNode(n, VMap(et, entries));
            && r.VMap? && r.elem == et
            && r.entries.Keys == NamesFrom(n, 0)
            && |r.entries| <= |n.children|
            && forall k | 0 <= k < |n.children| && LastWithName(n, k) ::
                 r.entries[n.children[k].value] == DecodeChildren(n.children[k], 0, Zero(et))
  {
    var r := UnmarshalNode(n, VMap(et, entries));
    var m := MapEntries(n, 0, et, map[]);
    assert r == DecodeStructNode(n, VMap(et, entries)) == VMap(et, m);
    MapEntriesKeys(n, 0, et, map[]);
    assert m.Keys == NamesFrom(n, 0);
    MapEntriesSize(n, 0, et, map[]);
    MapEntriesValues(n, 0, et, map[]);
  }

  // ------------------------------------------------------------ other kinds

  /** A block decoded into a string, an int or an opaque field does nothing. */
  lemma BlockIntoScalarIsNoOp(n: Node, out: Value)
    requires Plain(n) && n.kind == StructNode && (out.VString? || out.VInt? || out.VOther?)
    ensures UnmarshalNode(n, out) == out
  {
  }

  /**
   * A scalar decoded into a string field copies its text verbatim; into an int
   * field the decimal form of any 64-bit integer stores that integer.
   */
  lemma ScalarIntoField(text: string, s: string, k: int, prev: int)
    requires MinInt64 <= k <= MaxInt64
    ensures UnmarshalNode(Node(ScalarNode, text, "", []), VString(s)) == VString(text)
    ensures UnmarshalNode(Node(ScalarNode, FormatInt(k), "", []), VInt(prev)) == VInt(k)
  {
    var str := Node(ScalarNode, text, "", []);
    assert UnmarshalNode(str, VString(s)) == DecodeScalarNode(str, VString(s));
    var num := Node(ScalarNode, FormatInt(k), "", []);
    assert UnmarshalNode(num, VInt(prev)) == DecodeScalarNode(num, VInt(prev)) == VInt(ParseInt(FormatInt(k)));
    ParseFormat(k);
  }

  /** A scalar that does not parse, such as "36.2K", overwrites an int field with 0. */
  lemma UnparsableIntIsZero(prev: int)
    ensures UnmarshalNode(Node(ScalarNode, "36.2K", "", []), VInt(prev)) == VInt(0)
  {
    NotDecimalIsZero();
  }

  /** Text that strconv.ParseInt rejects overwrites an int field with 0, whatever it held. */
  lemma SyntaxErrorIntoInt(text: string, prev: int)
    requires var d := if |text| > 0 && (text[0] == '+' || text[0] == '-') then text[1..] else text;
             d == [] || (DigitPrefix(d) < |d| && DigitsValue(d[..DigitPrefix(d)]) <= MaxUint64)
    ensures UnmarshalNode(Node(ScalarNode, text, "", []), VInt(prev)) == VInt(0)
  {
    SyntaxErrorIsZero(text);
  }

  /** A scalar decoded into anything but a string or an int field leaves it as it was. */
  lemma ScalarIntoOtherKind(n: Node, out: Value)
    requires Plain(n) && n.kind == ScalarNode && !(out.VString? || out.VInt?)
    ensures UnmarshalNode(n, out) == out
  {
  }

  /** On a parse failure the destination is returned unchanged with the error "Parse error". */
  lemma ParseFailureLeavesDestination(data: string, out: Value)
    ensures Unmarshal(data, _ => None, out) == (Some(ParseError("Parse error")), out)
  {
  }
}
