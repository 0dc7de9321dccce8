/** The rewriter as it runs: decoded objects on the heap, links replaced in place. */
module JsonHeap {
  import opened Base
  import opened JsonTree

  /** A decoded JSON object; assignments to `fields` are seen by everyone who holds it. */
  class JsonObject {
    var fields: map<string, Value>

    constructor (fields: map<string, Value>)
      ensures this.fields == fields
    {
      this.fields := fields;
    }
  }

  datatype Value =
    | VNull
    | VBool(b: bool)
    | VNum(text: string)
    | VStr(s: string)
    | VArr(items: seq<Value>)
    | VObj(cell: JsonObject)

  /** Which object sits where in a decoded document; rewriting never changes it. */
  datatype Layout =
    | Scalar
    | Items(items: seq<Layout>)
    | Cell(cell: JsonObject, kids: map<string, Layout>)

  ghost function Cells(l: Layout): set<JsonObject> {
    match l
    case Scalar => {}
    case Items(items) => set i, c | 0 <= i < |items| && c in Cells(items[i]) :: c
    case Cell(cell, kids) => {cell} + set k, c | k in kids && c in Cells(kids[k]) :: c
  }

  /** A decoded document is a tree: no object sits in two places. */
  ghost predicate Separated(l: Layout) {
    match l
    case Scalar => true
    case Items(items) =>
      && (forall i :: 0 <= i < |items| ==> Separated(items[i]))
      && (forall i, j :: 0 <= i < j < |items| ==> Cells(items[i]) !! Cells(items[j]))
    case Cell(cell, kids) =>
      && (forall k :: k in kids ==> Separated(kids[k]) && cell !in Cells(kids[k]))
      && (forall j, k :: j in kids && k in kids && j != k ==> Cells(kids[j]) !! Cells(kids[k]))
  }

  ghost predicate Matches(v: Value, l: Layout)
    reads Cells(l)
    decreases l
  {
    match l
    case Scalar => !v.VArr? && !v.VObj?
    case Items(items) =>
      && v.VArr? && |v.items| == |items|
      && forall i :: 0 <= i < |items| ==> Matches(v.items[i], items[i])
    case Cell(cell, kids) =>
      && v == VObj(cell) && cell.fields.Keys == kids.Keys
      && forall k :: k in kids ==> Matches(cell.fields[k], kids[k])
  }

  /** The document as a value. */
  ghost function Document(v: Value, l: Layout): Json
    requires Matches(v, l)
    reads Cells(l)
    decreases l
  {
    match l
    case Scalar =>
      (match v
       case VBool(b) => Bool(b)
       case VNum(text) => Num(text)
       case VStr(s) => Str(s)
       case _ => Null)
    case Items(items) =>
      Arr(seq(|items|, i requires 0 <= i < |items| && Matches(v.items[i], items[i]) reads Cells(l) =>
        Document(v.items[i], items[i])))
    case Cell(cell, kids) =>
      Obj(map k | k in kids :: Document(cell.fields[k], kids[k]))
  }

  /** Every object of a document exists. */
  lemma {:induction false} CellsExist(v: Value, l: Layout)
    requires Matches(v, l)
    ensures forall c :: c in Cells(l) ==> allocated(c)
    decreases l
  {
    match l
    case Scalar =>
    case Items(items) =>
      forall i | 0 <= i < |items|
        ensures forall c :: c in Cells(items[i]) ==> allocated(c)
      {
        CellsExist(v.items[i], items[i]);
      }
    case Cell(cell, kids) =>
      forall k | k in kids
        ensures forall c :: c in Cells(kids[k]) ==> allocated(c)
      {
        CellsExist(cell.fields[k], kids[k]);
      }
  }

  lemma KidsExist(cell: JsonObject, l: Layout)
    requires Matches(VObj(cell), l)
    ensures forall j, c :: j in l.kids && c in Cells(l.kids[j]) ==> allocated(c)
  {
    forall j | j in l.kids
      ensures forall c :: c in Cells(l.kids[j]) ==> allocated(c)
    {
      CellsExist(cell.fields[j], l.kids[j]);
    }
  }

  /** The fields of an object are the documents of its values. */
  lemma FieldsAre(cell: JsonObject, l: Layout, fields: map<string, Json>)
    requires l.Cell? && cell == l.cell && cell.fields.Keys == l.kids.Keys == fields.Keys
    requires forall k :: k in l.kids ==> Matches(cell.fields[k], l.kids[k])
    requires forall k :: k in l.kids ==> Document(cell.fields[k], l.kids[k]) == fields[k]
    ensures Matches(VObj(cell), l) && Document(VObj(cell), l) == Obj(fields)
  {}

  method RewriteNextInValue(t: Target, v: Value, ghost l: Layout) returns (changed: bool)
    requires Separated(l) && Matches(v, l)
    modifies Cells(l)
    ensures Matches(v, l) && Document(v, l) == t.Rewrite(old(Document(v, l)))
    ensures changed == t.Touches(old(Document(v, l)))
    decreases l, 4
  {
    match v
    case VObj(cell) =>
      changed := RewriteFields(t, cell, l);
    case VArr(items) =>
      changed := RewriteItems(t, items, l);
    case _ =>
      changed := false;
  }

  method RewriteItems(t: Target, items: seq<Value>, ghost l: Layout) returns (changed: bool)
    requires Separated(l) && Matches(VArr(items), l)
    modifies Cells(l)
    ensures Matches(VArr(items), l) && Document(VArr(items), l) == t.Rewrite(old(Document(VArr(items), l)))
    ensures changed == t.Touches(old(Document(VArr(items), l)))
    decreases l, 1
  {
    changed := false;
    ghost var before := Document(VArr(items), l).items;
    for n := 0 to |items|
      invariant Matches(VArr(items), l)
      invariant Document(VArr(items), l).Arr? && |Document(VArr(items), l).items| == |items|
      invariant forall i :: 0 <= i < |items| ==>
                  Document(VArr(items), l).items[i] == if i < n then t.Rewrite(before[i]) else before[i]
      invariant changed <==> exists i :: 0 <= i < n && t.Touches(before[i])
    {
      var inner := RewriteItem(t, items, n, l);
      if inner {
        changed := true;
      }
    }
    assert Document(VArr(items), l).items == t.Rewrite(Arr(before)).items;
  }

  method RewriteItem(t: Target, items: seq<Value>, n: nat, ghost l: Layout) returns (inner: bool)
    requires Separated(l) && Matches(VArr(items), l) && n < |items|
    modifies Cells(l)
    ensures Matches(VArr(items), l)
    ensures var before := old(Document(VArr(items), l)).items;
            && Document(VArr(items), l) == Arr(before[n := t.Rewrite(before[n])])
            && inner == t.Touches(before[n])
    decreases l, 0
  {
    ghost var kids := l.items;
    forall i | 0 <= i < |kids|
      ensures forall c :: c in Cells(kids[i]) ==> allocated(c)
    {
      CellsExist(items[i], kids[i]);
    }
    inner := RewriteNextInValue(t, items[n], kids[n]);
    forall i | 0 <= i < |kids| && i != n
      ensures Matches(items[i], kids[i]) && Document(items[i], kids[i]) == old(Document(items[i], kids[i]))
    {
      assert Cells(kids[i]) !! Cells(kids[n]);
      assert forall c :: c in Cells(kids[i]) ==> old(allocated(c)) && unchanged(c);
    }
  }

  /** An object some of whose fields, `pending`, have yet to be rewritten. */
  ghost function Progress(t: Target, before: map<string, Json>, pending: set<string>): map<string, Json> {
    map k | k in before :: if k in pending then before[k] else t.RewriteField(k, before[k])
  }

  ghost predicate TouchedSoFar(t: Target, before: map<string, Json>, pending: set<string>) {
    exists k :: k in before && k !in pending && t.TouchesField(k, before[k])
  }

  lemma ProgressStep(t: Target, before: map<string, Json>, pending: set<string>, k: string)
    requires k in before && k in pending
    ensures Progress(t, before, pending)[k] == before[k]
    ensures Progress(t, before, pending)[k := t.RewriteField(k, before[k])] == Progress(t, before, pending - {k})
    ensures TouchedSoFar(t, before, pending - {k}) == (TouchedSoFar(t, before, pending) || t.TouchesField(k, before[k]))
  {}

  lemma ProgressEnds(t: Target, before: map<string, Json>)
    ensures Progress(t, before, before.Keys) == before && !TouchedSoFar(t, before, before.Keys)
    ensures Obj(Progress(t, before, {})) == t.Rewrite(Obj(before))
    ensures TouchedSoFar(t, before, {}) == t.Touches(Obj(before))
  {}

  method RewriteFields(t: Target, cell: JsonObject, ghost l: Layout) returns (changed: bool)
    requires Separated(l) && Matches(VObj(cell), l)
    modifies Cells(l)
    ensures Matches(VObj(cell), l) && Document(VObj(cell), l) == t.Rewrite(old(Document(VObj(cell), l)))
    ensures changed == t.Touches(old(Document(VObj(cell), l)))
    decreases l, 3
  {
    changed := false;
    ghost var before := Document(VObj(cell), l).fields;
    ProgressEnds(t, before);
    var pending := cell.fields.Keys;
    while pending != {}
      invariant Matches(VObj(cell), l) && pending <= before.Keys == cell.fields.Keys
      invariant Document(VObj(cell), l) == Obj(Progress(t, before, pending))
      invariant changed == TouchedSoFar(t, before, pending)
      decreases pending
    {
      var k :| k in pending;
      ProgressStep(t, before, pending, k);
      var inner := RewriteField(t, cell, k, l);
      if inner {
        changed := true;
      }
      pending := pending - {k};
    }
  }

  method RewriteField(t: Target, cell: JsonObject, k: string, ghost l: Layout) returns (inner: bool)
    requires Separated(l) && Matches(VObj(cell), l) && k in cell.fields
    modifies Cells(l)
    ensures Matches(VObj(cell), l) && cell.fields.Keys == old(cell.fields.Keys)
    ensures var before := old(Document(VObj(cell), l)).fields;
            && Document(VObj(cell), l) == Obj(before[k := t.RewriteField(k, before[k])])
            && inner == t.TouchesField(k, before[k])
    decreases l, 2
  {
    var val := cell.fields[k];
    ghost var was := Document(VObj(cell), l).fields[k];
    assert was == Document(val, l.kids[k]);
    assert if val.VStr? then was == Str(val.s) else !was.Str?;
    if k == "next" && val.VStr? && t.RewriteOne(val.s).Some? {
      ReplaceLink(cell, k, t.RewriteOne(val.s).value, l);
      inner := true;
    } else {
      inner := RewriteInside(t, cell, k, l);
    }
  }

  method ReplaceLink(cell: JsonObject, k: string, link: string, ghost l: Layout)
    requires Separated(l) && Matches(VObj(cell), l) && k in cell.fields && cell.fields[k].VStr?
    modifies cell
    ensures Matches(VObj(cell), l) && cell.fields.Keys == old(cell.fields.Keys)
    ensures Document(VObj(cell), l) == Obj(old(Document(VObj(cell), l)).fields[k := Str(link)])
  {
    ghost var kids := l.kids;
    ghost var before := Document(VObj(cell), l).fields;
    KidsExist(cell, l);
    cell.fields := cell.fields[k := VStr(link)];
    assert kids[k].Scalar?;
    forall j | j in kids && j != k
      ensures Matches(cell.fields[j], kids[j]) && Document(cell.fields[j], kids[j]) == before[j]
    {
      assert cell !in Cells(kids[j]);
      assert forall c :: c in Cells(kids[j]) ==> old(allocated(c)) && unchanged(c);
    }
    FieldsAre(cell, l, before[k := Str(link)]);
  }

  method RewriteInside(t: Target, cell: JsonObject, k: string, ghost l: Layout) returns (inner: bool)
    requires Separated(l) && Matches(VObj(cell), l) && k in cell.fields
    modifies Cells(l)
    ensures Matches(VObj(cell), l) && cell.fields.Keys == old(cell.fields.Keys)
    ensures var before := old(Document(VObj(cell), l)).fields;
            && Document(VObj(cell), l) == Obj(before[k := t.Rewrite(before[k])])
            && inner == t.Touches(before[k])
    decreases l, 1
  {
    ghost var before := Document(VObj(cell), l).fields;
    inner := RewriteKid(t, cell, k, l);
    FieldsAre(cell, l, before[k := t.Rewrite(before[k])]);
  }

  /** Rewrites below one field and leaves the object and its other fields alone. */
  method RewriteKid(t: Target, cell: JsonObject, k: string, ghost l: Layout) returns (inner: bool)
    requires Separated(l) && Matches(VObj(cell), l) && k in cell.fields
    modifies Cells(l.kids[k])
    ensures cell.fields == old(cell.fields)
    ensures forall j :: j in l.kids ==> Matches(cell.fields[j], l.kids[j])
    ensures forall j :: j in l.kids && j != k ==>
              Document(cell.fields[j], l.kids[j]) == old(Document(cell.fields[j], l.kids[j]))
    ensures Document(cell.fields[k], l.kids[k]) == t.Rewrite(old(Document(cell.fields[k], l.kids[k])))
    ensures inner == t.Touches(old(Document(cell.fields[k], l.kids[k])))
    decreases l, 0
  {
    ghost var kids := l.kids;
    KidsExist(cell, l);
    inner := RewriteNextInValue(t, cell.fields[k], kids[k]);
    forall j | j in kids && j != k
      ensures Matches(cell.fields[j], kids[j])
      ensures Document(cell.fields[j], kids[j]) == old(Document(cell.fields[j], kids[j]))
    {
      assert Cells(kids[j]) !! Cells(kids[k]);
      assert forall c :: c in Cells(kids[j]) ==> old(allocated(c)) && unchanged(c);
    }
  }
}
