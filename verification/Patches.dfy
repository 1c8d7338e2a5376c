/** Post-processing of generated patches: the stable sort by path and the filter by path prefix. */
module Patches {
  import opened Wrappers
  import opened Orders
  import opened Sorting
  import opened Text
  import JsonPointer
  import opened JsonPatch

  function PathLess(p: PatchOperation, q: PatchOperation): bool {
    StringLess(p.path, q.path)
  }

  lemma PathLessIsStrictWeakOrder()
    ensures IsStrictWeakOrder(PathLess)
  {
    StringsAreTotallyOrdered();
    forall p: PatchOperation, q: PatchOperation
      ensures PathLess(p, q) ==> !PathLess(q, p)
    {
      assert CompareStrings(p.path, q.path) == -CompareStrings(q.path, p.path);
    }
    forall p: PatchOperation, q: PatchOperation, r: PatchOperation | !PathLess(q, p) && !PathLess(r, q)
      ensures !PathLess(r, p)
    {
      assert CompareStrings(p.path, q.path) == -CompareStrings(q.path, p.path);
      assert CompareStrings(q.path, r.path) == -CompareStrings(r.path, q.path);
      assert CompareStrings(p.path, r.path) == -CompareStrings(r.path, p.path);
      assert CompareStrings(p.path, q.path) <= 0 && CompareStrings(q.path, r.path) <= 0;
    }
  }

  function SortByPath(patches: seq<PatchOperation>): seq<PatchOperation> {
    StableSort(PathLess, patches)
  }

  /** `diff` is the patch that the JSON diff library made, or its failure. */
  method GenerateFrom(diff: Option<seq<PatchOperation>>) returns (patches: Option<seq<PatchOperation>>)
    ensures patches == match diff { case None => None case Some(d) => Some(SortByPath(d)) }
  {
    if diff.None? {
      return None;
    }
    var copied: seq<PatchOperation> := [];
    for i := 0 to |diff.value|
      invariant copied == diff.value[..i]
    {
      copied := copied + [diff.value[i]];
    }
    var a := new PatchOperation[|copied|](i requires 0 <= i < |copied| => copied[i]);
    assert a[..] == copied == diff.value;
    InsertionSort(PathLess, a);
    return Some(a[..]);
  }

  function Unprefixed(path: string): PatchOperation -> bool {
    (p: PatchOperation) => !HasPrefix(p.path, path)
  }

  method SkipForPath(path: string, patches: seq<PatchOperation>) returns (modified: seq<PatchOperation>)
    ensures modified == Filter(Unprefixed(path), patches)
  {
    modified := [];
    for i := 0 to |patches|
      invariant modified == Filter(Unprefixed(path), patches[..i])
    {
      FilterPush(Unprefixed(path), patches[..i], patches[i]);
      assert patches[..i + 1] == patches[..i] + [patches[i]];
      if !HasPrefix(patches[i].path, path) {
        modified := modified + [patches[i]];
      }
    }
    assert patches[..|patches|] == patches;
  }

  lemma LessDiffers(a: string, b: string)
    requires StringLess(a, b)
    ensures a != b
  {
    StringsAreTotallyOrdered();
  }

  /** Any two operations that sorting brings into another order lie apart. */
  predicate InversionsLieApart(patches: seq<PatchOperation>) {
    forall i, j :: 0 <= i < j < |patches| && PathLess(patches[j], patches[i]) ==>
                     !Related(patches[j].path, patches[i].path)
  }

  /** For instance when any two operations have the same path or lie apart, whatever their order. */
  lemma ApartPathsSuffice(patches: seq<PatchOperation>)
    requires forall p, q | p in patches && q in patches :: p.path == q.path || !Related(p.path, q.path)
    ensures InversionsLieApart(patches)
  {
    forall i, j | 0 <= i < j < |patches| && PathLess(patches[j], patches[i])
      ensures !Related(patches[j].path, patches[i].path)
    {
      assert patches[i] in patches && patches[j] in patches;
      LessDiffers(patches[j].path, patches[i].path);
    }
  }

  /** Moving an operation before operations apart from it does not change what the list does. */
  lemma {:induction false} InsertKeepsMeaning(patches: seq<PatchOperation>, p: PatchOperation, doc: Json)
    requires forall q | q in patches :: PathLess(p, q) ==> !Related(p.path, q.path)
    ensures ApplyAll(StableInsert(PathLess, patches, p), doc) == ApplyAll(patches + [p], doc)
  {
    if |patches| > 0 {
      var init, last := patches[..|patches| - 1], patches[|patches| - 1];
      if PathLess(p, last) {
        assert last in patches;
        InsertKeepsMeaning(init, p, doc);
        ApplyPush(StableInsert(PathLess, init, p), last, doc);
        ApplyPush(init, p, doc);
        ApplyPush(patches, p, doc);
        ApplyCommutes(p, last, ApplyAll(init, doc));
      }
    }
  }

  lemma GreaterPathsLieApart(patches: seq<PatchOperation>, last: PatchOperation)
    requires InversionsLieApart(patches + [last])
    ensures InversionsLieApart(patches)
    ensures forall q | q in SortByPath(patches) :: PathLess(last, q) ==> !Related(last.path, q.path)
  {
    var all := patches + [last];
    assert forall i :: 0 <= i < |patches| ==> all[i] == patches[i];
    SortPermutes(PathLess, patches);
    forall q | q in SortByPath(patches) && PathLess(last, q)
      ensures !Related(last.path, q.path)
    {
      assert q in multiset(SortByPath(patches));
      var i :| 0 <= i < |patches| && patches[i] == q;
      assert all[i] == q && all[|patches|] == last;
    }
  }

  /**
   * Applying the sorted list gives what applying the original list gives, failures included, when the
   * operations that change their order lie apart.
   */
  lemma {:induction false} SortingKeepsMeaning(patches: seq<PatchOperation>, doc: Json)
    requires InversionsLieApart(patches)
    ensures ApplyAll(SortByPath(patches), doc) == ApplyAll(patches, doc)
  {
    if |patches| > 0 {
      var init, last := patches[..|patches| - 1], patches[|patches| - 1];
      assert patches == init + [last];
      GreaterPathsLieApart(init, last);
      SortingKeepsMeaning(init, doc);
      InsertKeepsMeaning(SortByPath(init), last, doc);
      ApplyPush(SortByPath(init), last, doc);
    }
  }

  /** The sorted operations come in the order of their paths. */
  lemma PathsAscend(patches: seq<PatchOperation>, i: nat, j: nat)
    requires i < j < |SortByPath(patches)|
    ensures !StringLess(SortByPath(patches)[j].path, SortByPath(patches)[i].path)
  {
    PathLessIsStrictWeakOrder();
    SortSorts(PathLess, patches);
  }

  /** Filtering commutes with sorting. */
  lemma SkipCommutesWithSort(path: string, patches: seq<PatchOperation>)
    ensures Filter(Unprefixed(path), SortByPath(patches)) == SortByPath(Filter(Unprefixed(path), patches))
  {
    PathLessIsStrictWeakOrder();
    FilterSort(PathLess, Unprefixed(path), patches);
  }

  /** Exactly the elements from `i` up to `j` are dropped. */
  ghost predicate DropsBlock<T>(keep: T -> bool, s: seq<T>, i: nat, j: nat) {
    && i <= j <= |s|
    && Filter(keep, s) == s[..i] + s[j..]
    && forall k :: 0 <= k < |s| ==> (!keep(s[k]) <==> i <= k < j)
  }

  lemma KeepNext<T>(keep: T -> bool, s: seq<T>, x: T, i: nat, j: nat)
    requires DropsBlock(keep, s, i, j) && keep(x)
    ensures DropsBlock(keep, s + [x], i, j)
  {
  }

  lemma DropNext<T>(keep: T -> bool, s: seq<T>, x: T, i: nat)
    requires DropsBlock(keep, s, i, |s|) && !keep(x)
    ensures DropsBlock(keep, s + [x], i, |s| + 1)
  {
  }

  lemma DropNothing<T>(keep: T -> bool, s: seq<T>, i: nat)
    requires DropsBlock(keep, s, i, i)
    ensures DropsBlock(keep, s, |s|, |s|)
  {
  }

  lemma BlockReachesEnd<T>(keep: T -> bool, s: seq<T>, x: T, i: nat, j: nat)
    requires DropsBlock(keep, s, i, j) && i < j && !keep(x)
    requires forall b :: i < b < |s| ==> !keep(s[b])
    ensures j == |s|
  {
  }

  /** A filter that drops an interval of the positions drops one block. */
  lemma {:induction false} FilterDropsBlock<T>(keep: T -> bool, s: seq<T>) returns (i: nat, j: nat)
    requires forall a, b, c :: 0 <= a < b < c < |s| && !keep(s[a]) && !keep(s[c]) ==> !keep(s[b])
    ensures DropsBlock(keep, s, i, j)
  {
    if |s| == 0 {
      i, j := 0, 0;
    } else {
      var init, last := s[..|s| - 1], s[|s| - 1];
      assert s == init + [last];
      i, j := FilterDropsBlock(keep, init);
      if keep(last) {
        KeepNext(keep, init, last, i, j);
      } else {
        if i == j {
          DropNothing(keep, init, i);
          i := |init|;
        } else {
          assert !keep(s[i]) && !keep(s[|init|]);
          assert forall b :: i < b < |init| ==> init[b] == s[b];
          BlockReachesEnd(keep, init, last, i, j);
        }
        DropNext(keep, init, last, i);
        j := |s|;
      }
    }
  }

  /** In a sorted list the operations below a path are one block, and the filter removes just that block. */
  lemma SkipRemovesOneBlock(path: string, patches: seq<PatchOperation>) returns (i: nat, j: nat)
    ensures var sorted := SortByPath(patches);
            && i <= j <= |sorted|
            && Filter(Unprefixed(path), sorted) == sorted[..i] + sorted[j..]
            && forall k :: 0 <= k < |sorted| ==> (HasPrefix(sorted[k].path, path) <==> i <= k < j)
  {
    var sorted := SortByPath(patches);
    PathLessIsStrictWeakOrder();
    SortSorts(PathLess, patches);
    forall a, b, c | 0 <= a < b < c < |sorted| && HasPrefix(sorted[a].path, path) && HasPrefix(sorted[c].path, path)
      ensures HasPrefix(sorted[b].path, path)
    {
      StringsAreTotallyOrdered();
      assert !PathLess(sorted[b], sorted[a]) && !PathLess(sorted[c], sorted[b]);
      assert CompareStrings(sorted[a].path, sorted[b].path) == -CompareStrings(sorted[b].path, sorted[a].path);
      assert CompareStrings(sorted[b].path, sorted[c].path) == -CompareStrings(sorted[c].path, sorted[b].path);
      PrefixInterval(path, sorted[a].path, sorted[b].path, sorted[c].path);
    }
    i, j := FilterDropsBlock(Unprefixed(path), sorted);
    assert DropsBlock(Unprefixed(path), sorted, i, j);
  }

  /** The sort is the stable one: sorted by path, operations with the same path in their original order. */
  lemma SortByPathIsStable(patches: seq<PatchOperation>, result: seq<PatchOperation>)
    ensures result == SortByPath(patches) <==>
              Sorted(PathLess, result) && SameClasses(PathLess, result, patches)
  {
    PathLessIsStrictWeakOrder();
    StableSortIsUnique(PathLess, patches, result);
  }

  lemma ApplyTwo(p: PatchOperation, q: PatchOperation, doc: Json)
    ensures ApplyAll([p, q], doc) == ApplyTo(q, Apply(p, doc))
  {
    assert [p, q][..1] == [p] && [p][..0] == [];
    assert ApplyAll([p], doc) == ApplyTo(p, ApplyAll([], doc)) == Apply(p, doc);
  }

  lemma SortTwo(p: PatchOperation, q: PatchOperation)
    requires PathLess(q, p)
    ensures SortByPath([p, q]) == [q, p]
  {
    SortPush(PathLess, [], p);
    InsertBehind(PathLess, [], p);
    assert [] + [p] == [p] && [p] + [q] == [p, q];
    SortPush(PathLess, [p], q);
    InsertPush(PathLess, [], p, q);
    InsertBehind(PathLess, [], q);
    assert ([] + [q]) + [p] == [q, p];
  }

  lemma PathsOfExample()
    ensures JsonPointer.Tokens("/a") == Some(["a"]) && JsonPointer.Tokens("/a/b") == Some(["a", "b"])
    ensures StringLess("/a", "/a/b")
  {
    JsonPointer.EscapePlain("a");
    JsonPointer.EscapePlain("b");
    JsonPointer.TokensOfPointer(["a"]);
    JsonPointer.TokensOfPointer(["a", "b"]);
    assert ["a"][1..] == [] && ["a", "b"][1..] == ["b"] && ["b"][1..] == [];
    assert JsonPointer.Pointer(["b"]) == "/b" && JsonPointer.Pointer(["a"]) == "/a";
    assert JsonPointer.Pointer(["a", "b"]) == "/a/b";
    assert "/a"[1..] == "a" && "/a/b"[1..] == "a/b" && "a"[1..] == "" && "a/b"[1..] == "/b";
    assert CompareStrings("", "/b") == -1;
    assert LexCompare(CompareChars, "a", "a/b") == LexCompare(CompareChars, "", "/b");
  }

  /** Without the condition sorting can change the meaning: here it moves a replacement before a removal below it. */
  lemma SortingMayChangeMeaning()
    ensures exists patches, doc :: ApplyAll(SortByPath(patches), doc) != ApplyAll(patches, doc)
  {
    var p := PatchOperation(REMOVE, "/a/b", Null);
    var q := PatchOperation(REPLACE, "/a", Null);
    var inner := Obj(map["b" := Null]);
    var doc := Obj(map["a" := inner]);
    PathsOfExample();
    SortTwo(p, q);
    ApplyTwo(p, q, doc);
    ApplyTwo(q, p, doc);
    assert ["a", "b"][1..] == ["b"] && ["b"][1..] == [] && ["a"][1..] == [];
    EditInside(REMOVE, Null, ["a", "b"], doc);
    assert EditMember(REMOVE, Null, Some(Null), []) == Drop;
    assert EditValue(REMOVE, Null, inner, ["b"]) == Some(Obj(map["b" := Null] - {"b"}));
    var removed := Apply(p, doc).value;
    assert EditMember(REPLACE, Null, Member(removed.members, "a"), []) == Put(Null);
    assert ApplyAll([p, q], doc).Some?;
    assert EditMember(REPLACE, Null, Some(inner), []) == Put(Null);
    var replaced := Apply(q, doc).value;
    EditInside(REMOVE, Null, ["a", "b"], replaced);
    assert ApplyAll([q, p], doc).None?;
  }
}
