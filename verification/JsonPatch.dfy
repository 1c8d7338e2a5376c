/**
 * JSON Patch (RFC 6902) over trees of objects. Scalars and whole arrays are leaves: an operation whose
 * path leads into an array is not covered and counts as failing.
 */
module JsonPatch {
  import opened Wrappers
  import opened JsonPointer

  datatype Json =
    | Null
    | Bool(b: bool)
    | Num(n: int)
    | Str(s: string)
    | Arr(elements: seq<Json>)
    | Obj(members: map<string, Json>)

  const ADD := "add"
  const REPLACE := "replace"
  const REMOVE := "remove"

  datatype PatchOperation = PatchOperation(operation: string, path: string, value: Json)

  function PatchAdd(path: string, value: Json): PatchOperation {
    PatchOperation(ADD, path, value)
  }

  function PatchReplace(path: string, value: Json): PatchOperation {
    PatchOperation(REPLACE, path, value)
  }

  /** What an operation does to one member of an object. */
  datatype Edit = Fail | Put(value: Json) | Drop

  function Member(members: map<string, Json>, key: string): Option<Json> {
    if key in members then Some(members[key]) else None
  }

  /** The edit of a member, given its current value and the tokens that follow its key. */
  function EditMember(operation: string, value: Json, current: Option<Json>, rest: seq<string>): Edit
    decreases |rest|, 1
  {
    if |rest| == 0 then
      if operation == ADD then Put(value)
      else if operation == REPLACE && current.Some? then Put(value)
      else if operation == REMOVE && current.Some? then Drop
      else Fail
    else if current.None? then Fail
    else
      match EditValue(operation, value, current.value, rest)
      case None => Fail
      case Some(v) => Put(v)
  }

  /** The value after an operation at the tokens, `None` when it fails (sections 4.1 to 4.3 of RFC 6902). */
  function EditValue(operation: string, value: Json, doc: Json, tokens: seq<string>): Option<Json>
    decreases |tokens|, 0
  {
    if |tokens| == 0 then
      if operation == ADD || operation == REPLACE then Some(value) else None
    else if !doc.Obj? then None
    else EditObject(EditMember(operation, value, Member(doc.members, tokens[0]), tokens[1..]), doc.members, tokens[0])
  }

  function EditObject(e: Edit, members: map<string, Json>, key: string): Option<Json> {
    match e
    case Fail => None
    case Put(v) => Some(Obj(members[key := v]))
    case Drop => Some(Obj(members - {key}))
  }

  function Apply(p: PatchOperation, doc: Json): Option<Json> {
    match Tokens(p.path)
    case None => None
    case Some(tokens) => EditValue(p.operation, p.value, doc, tokens)
  }

  function ApplyTo(p: PatchOperation, doc: Option<Json>): Option<Json> {
    match doc
    case None => None
    case Some(d) => Apply(p, d)
  }

  /** A patch fails as a whole when one of its operations fails (section 5 of RFC 6902). */
  function ApplyAll(patches: seq<PatchOperation>, doc: Json): Option<Json> {
    if |patches| == 0 then Some(doc)
    else ApplyTo(patches[|patches| - 1], ApplyAll(patches[..|patches| - 1], doc))
  }

  lemma ApplyPush(patches: seq<PatchOperation>, p: PatchOperation, doc: Json)
    ensures ApplyAll(patches + [p], doc) == ApplyTo(p, ApplyAll(patches, doc))
  {
  }

  lemma {:induction false} ApplyConcat(first: seq<PatchOperation>, second: seq<PatchOperation>, doc: Json)
    ensures ApplyAll(first + second, doc)
         == match ApplyAll(first, doc) { case None => None case Some(d) => ApplyAll(second, d) }
  {
    if |second| == 0 {
      assert first + second == first;
    } else {
      var init := second[..|second| - 1];
      ApplyConcat(first, init, doc);
      assert (first + second)[..|first + second| - 1] == first + init;
    }
  }

  predicate IsPrefix(a: seq<string>, b: seq<string>) {
    a <= b
  }

  /** Neither position contains the other. */
  predicate Apart(a: seq<string>, b: seq<string>) {
    !IsPrefix(a, b) && !IsPrefix(b, a)
  }

  lemma ApartTail(a: seq<string>, b: seq<string>)
    requires Apart(a, b)
    ensures |a| > 0 && |b| > 0
    ensures a[0] == b[0] ==> Apart(a[1..], b[1..]) && |a| > 1 && |b| > 1
  {
  }

  function Then(opA: string, va: Json, a: seq<string>, opB: string, vb: Json, b: seq<string>, doc: Json): Option<Json> {
    match EditValue(opA, va, doc, a)
    case None => None
    case Some(d) => EditValue(opB, vb, d, b)
  }

  lemma ObjectEditsCommute(ea: Edit, a: string, eb: Edit, b: string, m: map<string, Json>)
    requires a != b && !ea.Fail? && !eb.Fail?
    ensures EditObject(eb, EditObject(ea, m, a).value.members, b)
         == EditObject(ea, EditObject(eb, m, b).value.members, a)
  {
    match (ea, eb)
    case (Put(v), Put(w)) => assert m[a := v][b := w] == m[b := w][a := v];
    case (Put(v), Drop) => assert m[a := v] - {b} == (m - {b})[a := v];
    case (Drop, Put(w)) => assert m[b := w] - {a} == (m - {a})[b := w];
    case (Drop, Drop) => assert m - {a} - {b} == m - {b} - {a};
  }

  lemma ThenOnMembers(
      opA: string, va: Json, a: seq<string>, opB: string, vb: Json, b: seq<string>,
      m: map<string, Json>, ea: Edit, eb: Edit)
    requires |a| > 0 && |b| > 0 && a[0] != b[0]
    requires ea == EditMember(opA, va, Member(m, a[0]), a[1..])
    requires eb == EditMember(opB, vb, Member(m, b[0]), b[1..])
    ensures Then(opA, va, a, opB, vb, b, Obj(m))
         == if ea.Fail? || eb.Fail? then None else EditObject(eb, EditObject(ea, m, a[0]).value.members, b[0])
  {
  }

  /** Edits of different members of one object commute. */
  lemma EditsOfMembersCommute(opA: string, va: Json, a: seq<string>, opB: string, vb: Json, b: seq<string>, doc: Json)
    requires |a| > 0 && |b| > 0 && a[0] != b[0]
    ensures Then(opA, va, a, opB, vb, b, doc) == Then(opB, vb, b, opA, va, a, doc)
  {
    if doc.Obj? {
      var m := doc.members;
      var ea := EditMember(opA, va, Member(m, a[0]), a[1..]);
      var eb := EditMember(opB, vb, Member(m, b[0]), b[1..]);
      ThenOnMembers(opA, va, a, opB, vb, b, m, ea, eb);
      ThenOnMembers(opB, vb, b, opA, va, a, m, eb, ea);
      if !ea.Fail? && !eb.Fail? {
        ObjectEditsCommute(ea, a[0], eb, b[0], m);
      }
    }
  }

  /** Operations at positions that lie apart commute, failures included. */
  lemma {:induction false} EditsApartCommute(
      opA: string, va: Json, a: seq<string>, opB: string, vb: Json, b: seq<string>, doc: Json)
    requires Apart(a, b)
    ensures Then(opA, va, a, opB, vb, b, doc) == Then(opB, vb, b, opA, va, a, doc)
    decreases |a|
  {
    ApartTail(a, b);
    if a[0] != b[0] {
      EditsOfMembersCommute(opA, va, a, opB, vb, b, doc);
    } else {
      EditInside(opA, va, a, doc);
      EditInside(opB, vb, b, doc);
      if doc.Obj? && a[0] in doc.members {
        EditsApartCommute(opA, va, a[1..], opB, vb, b[1..], doc.members[a[0]]);
        ThenInside(opA, va, a, opB, vb, b, doc);
        ThenInside(opB, vb, b, opA, va, a, doc);
      }
    }
  }

  /** `doc` with the member replaced, unless the new value is missing. */
  function WithMember(doc: Json, key: string, value: Option<Json>): Option<Json>
    requires doc.Obj?
  {
    match value
    case None => None
    case Some(v) => Some(Obj(doc.members[key := v]))
  }

  /** An operation below a member edits that member. */
  lemma EditInside(op: string, value: Json, a: seq<string>, doc: Json)
    requires |a| > 1
    ensures EditValue(op, value, doc, a)
         == if doc.Obj? && a[0] in doc.members
            then WithMember(doc, a[0], EditValue(op, value, doc.members[a[0]], a[1..]))
            else None
  {
  }

  lemma ThenInside(opA: string, va: Json, a: seq<string>, opB: string, vb: Json, b: seq<string>, doc: Json)
    requires |a| > 1 && |b| > 1 && a[0] == b[0] && doc.Obj? && a[0] in doc.members
    ensures Then(opA, va, a, opB, vb, b, doc)
         == WithMember(doc, a[0], Then(opA, va, a[1..], opB, vb, b[1..], doc.members[a[0]]))
  {
    var k := a[0];
    EditInside(opA, va, a, doc);
    var first := EditValue(opA, va, doc.members[k], a[1..]);
    if first.Some? {
      var between := Obj(doc.members[k := first.value]);
      EditInside(opB, vb, b, between);
      var second := EditValue(opB, vb, first.value, b[1..]);
      if second.Some? {
        assert between.members[k := second.value] == doc.members[k := second.value];
      }
    }
  }

  /** Two pointers of which one leads into the position of the other. */
  predicate Related(p: string, q: string) {
    Tokens(p).Some? && Tokens(q).Some? && !Apart(Tokens(p).value, Tokens(q).value)
  }

  lemma ApplyCommutes(p: PatchOperation, q: PatchOperation, doc: Option<Json>)
    requires !Related(p.path, q.path)
    ensures ApplyTo(p, ApplyTo(q, doc)) == ApplyTo(q, ApplyTo(p, doc))
  {
    if doc.Some? && Tokens(p.path).Some? && Tokens(q.path).Some? {
      var a, b := Tokens(p.path).value, Tokens(q.path).value;
      EditsApartCommute(p.operation, p.value, a, q.operation, q.value, b, doc.value);
    }
  }

  /** The value at a position, through objects only. */
  function At(doc: Json, tokens: seq<string>): Option<Json> {
    if |tokens| == 0 then Some(doc)
    else if doc.Obj? && tokens[0] in doc.members then At(doc.members[tokens[0]], tokens[1..])
    else None
  }

  /** The value below a member. */
  lemma AtBelow(doc: Json, key: string, rest: seq<string>, tokens: seq<string>)
    requires tokens == [key] + rest
    ensures At(doc, tokens) == if doc.Obj? && key in doc.members then At(doc.members[key], rest) else None
  {
    assert tokens[1..] == rest;
  }

  predicate IsObjectAt(doc: Json, tokens: seq<string>) {
    At(doc, tokens).Some? && At(doc, tokens).value.Obj?
  }

  /** Adding a member succeeds exactly when its parent is an object, and puts the value there. */
  lemma {:induction false} AddSucceeds(doc: Json, tokens: seq<string>, value: Json)
    requires |tokens| > 0
    ensures EditValue(ADD, value, doc, tokens).Some? <==> IsObjectAt(doc, tokens[..|tokens| - 1])
    ensures EditValue(ADD, value, doc, tokens).Some? ==>
              At(EditValue(ADD, value, doc, tokens).value, tokens) == Some(value)
  {
    if |tokens| == 1 {
      assert tokens[1..] == [] && tokens[..0] == [];
    } else {
      assert tokens[..|tokens| - 1][0] == tokens[0] && tokens[..|tokens| - 1][1..] == tokens[1..][..|tokens[1..]| - 1];
      if doc.Obj? && tokens[0] in doc.members {
        AddSucceeds(doc.members[tokens[0]], tokens[1..], value);
      }
    }
  }

  /** What adding a member does to its parent. */
  lemma {:induction false} AddInParent(doc: Json, parent: seq<string>, key: string, value: Json)
    requires IsObjectAt(doc, parent)
    ensures EditValue(ADD, value, doc, parent + [key]).Some?
    ensures At(EditValue(ADD, value, doc, parent + [key]).value, parent)
         == Some(Obj(At(doc, parent).value.members[key := value]))
  {
    if |parent| == 0 {
      assert (parent + [key])[1..] == [];
      assert EditMember(ADD, value, Member(doc.members, key), []) == Put(value);
    } else {
      AddInParent(doc.members[parent[0]], parent[1..], key, value);
      assert (parent + [key])[1..] == parent[1..] + [key];
      EditInside(ADD, value, parent + [key], doc);
    }
  }

  /** Replacing a member needs the member itself. */
  lemma {:induction false} ReplaceSucceeds(doc: Json, tokens: seq<string>, value: Json)
    requires |tokens| > 0
    ensures EditValue(REPLACE, value, doc, tokens).Some? <==> At(doc, tokens).Some?
    ensures At(doc, tokens).Some? ==> EditValue(REPLACE, value, doc, tokens) == EditValue(ADD, value, doc, tokens)
  {
    if doc.Obj? && tokens[0] in doc.members && |tokens| > 1 {
      ReplaceSucceeds(doc.members[tokens[0]], tokens[1..], value);
    }
  }

  /** Removing a member needs the member, and takes it away. */
  lemma {:induction false} RemoveSucceeds(doc: Json, tokens: seq<string>, value: Json)
    requires |tokens| > 0
    ensures EditValue("remove", value, doc, tokens).Some? <==> At(doc, tokens).Some?
    ensures At(doc, tokens).Some? ==> At(EditValue("remove", value, doc, tokens).value, tokens).None?
  {
    if |tokens| > 1 {
      EditInside("remove", value, tokens, doc);
      if doc.Obj? && tokens[0] in doc.members {
        RemoveSucceeds(doc.members[tokens[0]], tokens[1..], value);
      }
    }
  }

  /** The operations by their names; all others fail. */
  lemma {:induction false} OtherOperationsFail(operation: string, value: Json, doc: Json, tokens: seq<string>)
    requires operation != "add" && operation != "replace" && operation != "remove"
    ensures EditValue(operation, value, doc, tokens).None?
  {
    if |tokens| > 1 {
      EditInside(operation, value, tokens, doc);
      if doc.Obj? && tokens[0] in doc.members {
        OtherOperationsFail(operation, value, doc.members[tokens[0]], tokens[1..]);
      }
    }
  }

  /** At the root an add or a replacement takes the place of the document; a wrong path always fails. */
  lemma RootAndWrongPaths(value: Json, doc: Json, operation: string, path: string)
    ensures EditValue("add", value, doc, []) == EditValue("replace", value, doc, []) == Some(value)
    ensures EditValue("remove", value, doc, []) == None
    ensures Tokens(path).None? ==> Apply(PatchOperation(operation, path, value), doc).None?
  {
  }

  /** An operation leaves everything that lies apart from its position as it was. */
  lemma {:induction false} EditFrame(operation: string, value: Json, doc: Json, tokens: seq<string>, other: seq<string>)
    requires Apart(tokens, other) && EditValue(operation, value, doc, tokens).Some?
    ensures At(EditValue(operation, value, doc, tokens).value, other) == At(doc, other)
  {
    ApartTail(tokens, other);
    if tokens[0] == other[0] {
      EditFrame(operation, value, doc.members[tokens[0]], tokens[1..], other[1..]);
    }
  }

  /** An operation keeps every object that it does not lie above, and makes none. */
  lemma {:induction false} EditKeepsObjects(
      operation: string, value: Json, doc: Json, tokens: seq<string>, other: seq<string>)
    requires !IsPrefix(tokens, other) && EditValue(operation, value, doc, tokens).Some?
    ensures IsObjectAt(EditValue(operation, value, doc, tokens).value, other) <==> IsObjectAt(doc, other)
  {
    if |other| > 0 {
      if tokens[0] == other[0] {
        EditInside(operation, value, tokens, doc);
        EditKeepsObjects(operation, value, doc.members[tokens[0]], tokens[1..], other[1..]);
      }
    }
  }

  /** Every operation of the list has a proper path, apart from the position. */
  predicate AllApart(patches: seq<PatchOperation>, other: seq<string>) {
    forall p | p in patches :: Tokens(p.path).Some? ==> Apart(Tokens(p.path).value, other)
  }

  lemma {:induction false} ApplyFrame(patches: seq<PatchOperation>, doc: Json, other: seq<string>)
    requires AllApart(patches, other) && ApplyAll(patches, doc).Some?
    ensures At(ApplyAll(patches, doc).value, other) == At(doc, other)
  {
    if |patches| > 0 {
      var init, last := patches[..|patches| - 1], patches[|patches| - 1];
      ApplyFrame(init, doc, other);
      assert last in patches;
      EditFrame(last.operation, last.value, ApplyAll(init, doc).value, Tokens(last.path).value, other);
    }
  }
}
