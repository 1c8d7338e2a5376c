/** Patches that fill empty fields of an object, and what a list of them does together with further patches. */
module FieldPatches {
  import opened Wrappers
  import opened Sorting
  import opened JsonPointer
  import opened JsonPatch
  import opened Patches

  /** A field that a webhook fills when it needs to: its place, as reference tokens, and its default value. */
  datatype Fill = Fill(tokens: seq<string>, value: Json, needed: bool)

  function FillPatch(f: Fill): seq<PatchOperation> {
    if f.needed then [PatchAdd(Pointer(f.tokens), f.value)] else []
  }

  function FillPatches(fills: seq<Fill>): seq<PatchOperation> {
    if |fills| == 0 then [] else FillPatches(fills[..|fills| - 1]) + FillPatch(fills[|fills| - 1])
  }

  lemma FillPatchesPush(fills: seq<Fill>, f: Fill)
    ensures FillPatches(fills + [f]) == FillPatches(fills) + FillPatch(f)
  {
  }

  lemma OneFillPatch(f: Fill)
    ensures FillPatches([f]) == FillPatch(f)
  {
    assert [f][..0] == [];
  }

  lemma ThreeFillPatches(a: Fill, b: Fill, c: Fill)
    ensures FillPatches([a, b, c]) == FillPatch(a) + FillPatch(b) + FillPatch(c)
  {
    var one := [a];
    var two := one + [b];
    OneFillPatch(a);
    FillPatchesPush(one, b);
    FillPatchesPush(two, c);
    assert two + [c] == [a, b, c];
  }

  /** None of the places contains another. */
  predicate AreSeparate(places: seq<seq<string>>) {
    forall i, j :: 0 <= i < |places| && 0 <= j < |places| && i != j ==> Apart(places[i], places[j])
  }

  /** None of the fields contains another, and none is the whole object. */
  predicate AreSeparateFills(fills: seq<Fill>) {
    && (forall i :: 0 <= i < |fills| ==> |fills[i].tokens| > 0)
    && (forall i, j :: 0 <= i < |fills| && 0 <= j < |fills| && i != j ==> Apart(fills[i].tokens, fills[j].tokens))
  }

  lemma ThreeFillsAreSeparate(fills: seq<Fill>)
    requires |fills| == 3
    requires Apart(fills[0].tokens, fills[1].tokens) && Apart(fills[0].tokens, fills[2].tokens)
    requires Apart(fills[1].tokens, fills[2].tokens)
    ensures AreSeparateFills(fills)
  {
  }

  lemma PushIsSeparate(fills: seq<Fill>, f: Fill)
    requires AreSeparateFills(fills) && |f.tokens| > 0
    requires forall g | g in fills :: Apart(g.tokens, f.tokens)
    ensures AreSeparateFills(fills + [f])
  {
    var more := fills + [f];
    forall i, j | 0 <= i < |more| && 0 <= j < |more| && i != j
      ensures Apart(more[i].tokens, more[j].tokens)
    {
      assert i < |fills| ==> more[i] in fills;
      assert j < |fills| ==> more[j] in fills;
    }
  }

  /** The patches stay away from all the places. */
  predicate LeavesAlone(places: seq<seq<string>>, patches: seq<PatchOperation>) {
    forall place | place in places :: AllApart(patches, place)
  }

  /** The patches stay away from all the fields. */
  predicate LeavesFieldsAlone(fills: seq<Fill>, patches: seq<PatchOperation>) {
    forall f | f in fills :: AllApart(patches, f.tokens)
  }

  lemma SortingLeavesAlone(places: seq<seq<string>>, patches: seq<PatchOperation>)
    requires LeavesAlone(places, patches)
    ensures LeavesAlone(places, SortByPath(patches))
  {
    SortPermutes(PathLess, patches);
    forall p | p in SortByPath(patches)
      ensures p in patches
    {
      assert p in multiset(SortByPath(patches));
    }
  }

  function Parent(tokens: seq<string>): seq<string>
    requires |tokens| > 0
  {
    tokens[..|tokens| - 1]
  }

  /** The object is there to which the field belongs, should it need filling. */
  predicate CanFill(doc: Json, f: Fill) {
    f.needed && |f.tokens| > 0 ==> IsObjectAt(doc, Parent(f.tokens))
  }

  lemma ApartAt(a: seq<string>, b: seq<string>, k: nat)
    requires k < |a| && k < |b| && a[k] != b[k]
    ensures Apart(a, b) && Apart(b, a)
  {
  }

  lemma ApartBelow(a: seq<string>, b: seq<string>, key: string)
    requires Apart(a, b)
    ensures Apart(a, b + [key]) && Apart(b + [key], a)
  {
    var k :| 0 <= k < |a| && k < |b| && a[k] != b[k];
    ApartAt(a, b + [key], k);
  }

  lemma AllApartBelow(patches: seq<PatchOperation>, place: seq<string>, key: string)
    requires AllApart(patches, place)
    ensures AllApart(patches, place + [key])
  {
    forall p | p in patches && Tokens(p.path).Some?
      ensures Apart(Tokens(p.path).value, place + [key])
    {
      ApartBelow(Tokens(p.path).value, place, key);
    }
  }

  lemma SplitApply(first: seq<PatchOperation>, second: seq<PatchOperation>, doc: Json)
    requires ApplyAll(first + second, doc).Some?
    ensures ApplyAll(first, doc).Some?
    ensures ApplyAll(second, ApplyAll(first, doc).value) == ApplyAll(first + second, doc)
  {
    ApplyConcat(first, second, doc);
  }

  lemma ApplyFill(doc: Json, f: Fill)
    ensures ApplyAll(FillPatch(f), doc) == if f.needed then EditValue(ADD, f.value, doc, f.tokens) else Some(doc)
  {
    TokensOfPointer(f.tokens);
    if f.needed {
      assert FillPatch(f)[..0] == [] && ApplyAll([], doc) == Some(doc);
    }
  }

  /** A single fill applies exactly when it can, sets its field, and keeps what is apart and every object outside. */
  lemma FillSets(doc: Json, f: Fill)
    requires |f.tokens| > 0
    ensures ApplyAll(FillPatch(f), doc).Some? <==> CanFill(doc, f)
    ensures ApplyAll(FillPatch(f), doc).Some? ==>
              At(ApplyAll(FillPatch(f), doc).value, f.tokens) == if f.needed then Some(f.value) else At(doc, f.tokens)
  {
    ApplyFill(doc, f);
    AddSucceeds(doc, f.tokens, f.value);
  }

  lemma FillFrame(doc: Json, f: Fill, other: seq<string>)
    requires Apart(f.tokens, other) && ApplyAll(FillPatch(f), doc).Some?
    ensures At(ApplyAll(FillPatch(f), doc).value, other) == At(doc, other)
  {
    ApplyFill(doc, f);
    if f.needed {
      EditFrame(ADD, f.value, doc, f.tokens, other);
    }
  }

  lemma {:induction false} FillPaths(fills: seq<Fill>, p: PatchOperation)
    requires p in FillPatches(fills)
    ensures exists f | f in fills :: Tokens(p.path) == Some(f.tokens)
  {
    var init, last := fills[..|fills| - 1], fills[|fills| - 1];
    if p in FillPatches(init) {
      FillPaths(init, p);
      var f :| f in init && Tokens(p.path) == Some(f.tokens);
      assert f in fills;
    } else {
      TokensOfPointer(last.tokens);
      assert last in fills;
    }
  }

  lemma FillsStayApart(fills: seq<Fill>, other: seq<string>)
    requires forall f | f in fills :: Apart(f.tokens, other)
    ensures AllApart(FillPatches(fills), other)
  {
    forall p | p in FillPatches(fills)
      ensures Tokens(p.path).Some? && Apart(Tokens(p.path).value, other)
    {
      FillPaths(fills, p);
    }
  }

  /** A list of fills leaves everything apart from their fields as it was. */
  lemma FillsFrame(fills: seq<Fill>, doc: Json, other: seq<string>)
    requires (forall f | f in fills :: Apart(f.tokens, other)) && ApplyAll(FillPatches(fills), doc).Some?
    ensures At(ApplyAll(FillPatches(fills), doc).value, other) == At(doc, other)
  {
    FillsStayApart(fills, other);
    ApplyFrame(FillPatches(fills), doc, other);
  }

  lemma InitOfFills(fills: seq<Fill>)
    requires AreSeparateFills(fills) && |fills| > 0
    ensures AreSeparateFills(fills[..|fills| - 1])
    ensures forall f | f in fills[..|fills| - 1] :: Apart(f.tokens, fills[|fills| - 1].tokens)
  {
  }

  /** Every field that needs it gets its default, and no other one changes. */
  lemma {:induction false} FillsSet(fills: seq<Fill>, doc: Json, i: nat)
    requires AreSeparateFills(fills) && i < |fills| && ApplyAll(FillPatches(fills), doc).Some?
    ensures At(ApplyAll(FillPatches(fills), doc).value, fills[i].tokens)
         == if fills[i].needed then Some(fills[i].value) else At(doc, fills[i].tokens)
    decreases |fills|
  {
    var init, last := fills[..|fills| - 1], fills[|fills| - 1];
    InitOfFills(fills);
    SplitApply(FillPatches(init), FillPatch(last), doc);
    var between := ApplyAll(FillPatches(init), doc).value;
    if i < |init| {
      FillsSet(init, doc, i);
      FillFrame(between, last, fills[i].tokens);
    } else {
      FillsFrame(init, doc, last.tokens);
      FillSets(between, last);
    }
  }

  lemma AboveApart(tokens: seq<string>, other: seq<string>)
    requires |other| > 0 && Apart(tokens, other)
    ensures !IsPrefix(tokens, Parent(other))
  {
  }

  /** Patches that stay away from a field keep the object it belongs to, if it is one. */
  lemma {:induction false} PatchesKeepParent(patches: seq<PatchOperation>, doc: Json, other: seq<string>)
    requires |other| > 0 && AllApart(patches, other) && ApplyAll(patches, doc).Some?
    ensures IsObjectAt(ApplyAll(patches, doc).value, Parent(other)) <==> IsObjectAt(doc, Parent(other))
  {
    if |patches| > 0 {
      var init, last := patches[..|patches| - 1], patches[|patches| - 1];
      PatchesKeepParent(init, doc, other);
      assert last in patches;
      AboveApart(Tokens(last.path).value, other);
      EditKeepsObjects(
        last.operation, last.value, ApplyAll(init, doc).value, Tokens(last.path).value, Parent(other));
    }
  }

  lemma CanFillPush(doc: Json, fills: seq<Fill>, last: Fill)
    ensures (forall f | f in fills + [last] :: CanFill(doc, f)) <==>
              (forall f | f in fills :: CanFill(doc, f)) && CanFill(doc, last)
  {
    var more := fills + [last];
    assert more[|fills|] in more;
    assert forall f :: f in fills ==> f in more;
  }

  /** A list of fills applies exactly when every object exists to which a field has to be added. */
  lemma {:induction false} FillsApplyExactly(fills: seq<Fill>, doc: Json)
    requires AreSeparateFills(fills)
    ensures ApplyAll(FillPatches(fills), doc).Some? <==> forall f | f in fills :: CanFill(doc, f)
  {
    if |fills| > 0 {
      var init, last := fills[..|fills| - 1], fills[|fills| - 1];
      assert fills == init + [last];
      InitOfFills(fills);
      FillsApplyExactly(init, doc);
      CanFillPush(doc, init, last);
      ApplyConcat(FillPatches(init), FillPatch(last), doc);
      var between := ApplyAll(FillPatches(init), doc);
      if between.Some? {
        FillsStayApart(init, last.tokens);
        PatchesKeepParent(FillPatches(init), doc, last.tokens);
        assert CanFill(between.value, last) <==> CanFill(doc, last);
        FillSets(between.value, last);
      }
    }
  }

  /** An operation may move in front of operations that lie apart from it. */
  lemma {:induction false} MoveToFront(patches: seq<PatchOperation>, q: PatchOperation, doc: Json)
    requires forall p | p in patches :: !Related(p.path, q.path)
    ensures ApplyAll(patches + [q], doc) == ApplyAll([q] + patches, doc)
  {
    if |patches| == 0 {
      assert patches + [q] == [q] + patches;
    } else {
      var init, last := patches[..|patches| - 1], patches[|patches| - 1];
      assert patches == init + [last] && last in patches;
      MoveToFront(init, q, doc);
      ApplyPush(patches, q, doc);
      ApplyPush(init, last, doc);
      ApplyPush(init, q, doc);
      assert [q] + patches == ([q] + init) + [last];
      ApplyPush([q] + init, last, doc);
      ApplyCommutes(q, last, ApplyAll(init, doc));
    }
  }

  lemma MoveAcross(
      first: seq<PatchOperation>, init: seq<PatchOperation>, last: PatchOperation, doc: Json)
    requires forall p | p in first :: !Related(p.path, last.path)
    ensures ApplyAll((init + first) + [last], doc) == ApplyAll((init + [last]) + first, doc)
  {
    assert (init + first) + [last] == init + (first + [last]);
    assert (init + [last]) + first == init + ([last] + first);
    ApplyConcat(init, first + [last], doc);
    ApplyConcat(init, [last] + first, doc);
    if ApplyAll(init, doc).Some? {
      MoveToFront(first, last, ApplyAll(init, doc).value);
    }
  }

  /** Lists of operations that lie apart from each other may be applied in either order. */
  lemma {:induction false} SwapLists(first: seq<PatchOperation>, second: seq<PatchOperation>, doc: Json)
    requires forall p, q | p in first && q in second :: !Related(p.path, q.path)
    ensures ApplyAll(first + second, doc) == ApplyAll(second + first, doc)
  {
    if |second| == 0 {
      assert first + second == second + first;
    } else {
      var init, last := second[..|second| - 1], second[|second| - 1];
      assert second == init + [last] && last in second;
      SwapLists(first, init, doc);
      assert first + second == (first + init) + [last];
      ApplyPush(first + init, last, doc);
      ApplyPush(init + first, last, doc);
      MoveAcross(first, init, last, doc);
    }
  }

  lemma FillsAreUnrelated(fills: seq<Fill>, rest: seq<PatchOperation>)
    requires LeavesFieldsAlone(fills, rest)
    ensures forall p, q | p in FillPatches(fills) && q in rest :: !Related(p.path, q.path)
  {
    forall p, q | p in FillPatches(fills) && q in rest
      ensures !Related(p.path, q.path)
    {
      FillPaths(fills, p);
    }
  }

  /** Filling fields and then patching elsewhere is the same as patching first and then filling. */
  lemma FillsCommuteWithRest(fills: seq<Fill>, rest: seq<PatchOperation>, doc: Json)
    requires LeavesFieldsAlone(fills, rest)
    ensures ApplyAll(FillPatches(fills) + rest, doc) == ApplyAll(rest + FillPatches(fills), doc)
  {
    FillsAreUnrelated(fills, rest);
    SwapLists(FillPatches(fills), rest, doc);
  }

  /** Both together apply exactly when each of them does. */
  lemma FillsAndRestApplyExactly(fills: seq<Fill>, rest: seq<PatchOperation>, doc: Json)
    requires AreSeparateFills(fills) && LeavesFieldsAlone(fills, rest)
    ensures ApplyAll(FillPatches(fills) + rest, doc).Some? <==>
              (forall f | f in fills :: CanFill(doc, f)) && ApplyAll(rest, doc).Some?
  {
    FillsCommuteWithRest(fills, rest, doc);
    ApplyConcat(rest, FillPatches(fills), doc);
    var between := ApplyAll(rest, doc);
    if between.Some? {
      FillsApplyExactly(fills, between.value);
      forall f | f in fills
        ensures CanFill(doc, f) <==> CanFill(between.value, f)
      {
        PatchesKeepParent(rest, doc, f.tokens);
      }
    }
  }
}
