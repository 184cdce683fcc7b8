// Lists of named values: replacing complete definitions and applying patches
// (internal/catalog/merge_values.go).
module MergeValues {
  import opened Text

  datatype Named<+T> = Named(id: string, value: T)

  datatype Patch<+T> = Patch(replace: Option<seq<Named<T>>>, remove: seq<string>, add: seq<Named<T>>)

  datatype Error = DuplicateInput(id: string) | DuplicateFinal(id: string)

  function Ids<T>(values: seq<Named<T>>): (ids: seq<string>)
    ensures |ids| == |values| && forall i :: 0 <= i < |values| ==> ids[i] == values[i].id
  {
    seq(|values|, i requires 0 <= i < |values| => values[i].id)
  }

  // The first ID that repeats an earlier one.
  function Repeated(ids: seq<string>): Option<string> {
    if ids == [] then None
    else
      var first := Repeated(ids[..|ids| - 1]);
      if first.Some? then first
      else if ids[|ids| - 1] in ids[..|ids| - 1] then Some(ids[|ids| - 1])
      else None
  }

  lemma {:induction false} RepeatedIsDuplicate(ids: seq<string>)
    ensures Repeated(ids).None? <==> NoDuplicates(ids)
    ensures Repeated(ids).Some? ==> exists i, j :: 0 <= i < j < |ids| && ids[i] == ids[j] == Repeated(ids).value
  {
    if ids != [] {
      var rest, last := ids[..|ids| - 1], ids[|ids| - 1];
      RepeatedIsDuplicate(rest);
      if Repeated(rest).Some? {
        var i, j :| 0 <= i < j < |rest| && rest[i] == rest[j] == Repeated(rest).value;
        assert ids[i] == ids[j] == Repeated(ids).value;
      } else if last in rest {
        var i :| 0 <= i < |rest| && rest[i] == last;
        assert ids[i] == ids[|ids| - 1] == last;
      } else {
        forall i, j | 0 <= i < j < |ids|
          ensures ids[i] != ids[j]
        {
          if j < |rest| { assert rest[i] != rest[j]; } else { assert rest[i] in rest; }
        }
      }
    }
  }

  lemma {:induction false} FirstRepeatStops(ids: seq<string>, k: nat)
    requires k <= |ids| && Repeated(ids[..k]).Some?
    ensures Repeated(ids) == Repeated(ids[..k])
    decreases |ids|
  {
    if k < |ids| {
      assert ids[..|ids| - 1][..k] == ids[..k];
      FirstRepeatStops(ids[..|ids| - 1], k);
    } else {
      assert ids[..k] == ids;
    }
  }

  // uniqueIDs, uniqueNamedValues, uniqueFinalValues
  method FindRepeated(ids: seq<string>) returns (repeated: Option<string>)
    ensures repeated == Repeated(ids)
  {
    var seen: set<string> := {};
    for i := 0 to |ids|
      invariant seen == Elements(ids[..i])
      invariant Repeated(ids[..i]).None?
    {
      PrefixElements(ids, i);
      assert ids[..i + 1][..i] == ids[..i];
      assert ids[i] in seen <==> ids[i] in ids[..i];
      if ids[i] in seen {
        FirstRepeatStops(ids, i + 1);
        return Some(ids[i]);
      }
      seen := seen + {ids[i]};
    }
    assert ids[..|ids|] == ids;
    return None;
  }

  // What is stored under an ID.
  ghost predicate Has<T(!new)>(values: seq<Named<T>>, id: string, value: T) {
    exists i :: 0 <= i < |values| && values[i] == Named(id, value)
  }

  // ---- Replacing complete definitions ----

  ghost predicate PositionsOf<T>(positions: map<string, nat>, values: seq<Named<T>>) {
    && (forall id :: id in positions ==> positions[id] < |values| && values[positions[id]].id == id)
    && forall i :: 0 <= i < |values| ==> values[i].id in positions && positions[values[i].id] == i
  }

  // The result is the base in its order with replaced values in place, then the new IDs in theirs; the
  // check of the result never fires.
  method ReplaceCompleteDefinitions<T(!new)>(base: seq<Named<T>>, replacements: seq<Named<T>>)
    returns (result: Result<seq<Named<T>>, Error>)
    ensures result.Ok? <==> NoDuplicates(Ids(base)) && NoDuplicates(Ids(replacements))
    ensures result.Err? ==>
      && result.error.DuplicateInput?
      && Some(result.error.id) == if Repeated(Ids(base)).Some? then Repeated(Ids(base)) else Repeated(Ids(replacements))
    ensures result.Ok? ==> result.value == Replaced(base, replacements)
  {
    RepeatedIsDuplicate(Ids(base));
    RepeatedIsDuplicate(Ids(replacements));
    var repeated := FindRepeated(Ids(base));
    if repeated.Some? { return Err(DuplicateInput(repeated.value)); }
    repeated := FindRepeated(Ids(replacements));
    if repeated.Some? { return Err(DuplicateInput(repeated.value)); }
    var values := base;
    var positions: map<string, nat> := IndexIds(base);
    assert replacements[..0] == [];
    for i := 0 to |replacements|
      invariant values == Replaced(base, replacements[..i])
      invariant PositionsOf(positions, values)
    {
      var replacement := replacements[i];
      assert replacements[..i + 1][..i] == replacements[..i];
      PositionsFind(positions, values, replacement.id);
      if replacement.id in positions {
        var position: nat := positions[replacement.id];
        values := values[position := replacement];
      } else {
        var end: nat := |values|;
        positions := positions[replacement.id := end];
        values := values + [replacement];
      }
    }
    assert replacements[..|replacements|] == replacements;
    PositionsAreUnique(positions, values);
    RepeatedIsDuplicate(Ids(values));
    repeated := FindRepeated(Ids(values));
    // Where the source would report a duplicate in the result.
    if repeated.Some? { assert false; }
    return Ok(values);
  }

  method IndexIds<T(!new)>(values: seq<Named<T>>) returns (positions: map<string, nat>)
    requires NoDuplicates(Ids(values))
    ensures PositionsOf(positions, values)
  {
    positions := map[];
    for i := 0 to |values|
      invariant forall id :: id in positions ==> positions[id] < i && values[positions[id]].id == id
      invariant forall j :: 0 <= j < i ==> values[j].id in positions && positions[values[j].id] == j
    {
      assert forall j :: 0 <= j < i ==> Ids(values)[j] != Ids(values)[i];
      positions := positions[values[i].id := i];
    }
  }

  lemma PositionsFind<T>(positions: map<string, nat>, values: seq<Named<T>>, id: string)
    requires PositionsOf(positions, values)
    ensures id in positions <==> IndexOf(values, id).Some?
    ensures id in positions ==> IndexOf(values, id) == Some(positions[id])
  {
    IndexOfFinds(values, id);
  }

  lemma PositionsAreUnique<T>(positions: map<string, nat>, values: seq<Named<T>>)
    requires PositionsOf(positions, values)
    ensures NoDuplicates(Ids(values))
  {
  }

  function IndexOf<T>(values: seq<Named<T>>, id: string): Option<nat> {
    if values == [] then None
    else if values[|values| - 1].id == id then Some(|values| - 1)
    else IndexOf(values[..|values| - 1], id)
  }

  lemma {:induction false} IndexOfFinds<T>(values: seq<Named<T>>, id: string)
    ensures IndexOf(values, id).Some? ==>
      IndexOf(values, id).value < |values| && values[IndexOf(values, id).value].id == id
    ensures IndexOf(values, id).None? <==> forall i :: 0 <= i < |values| ==> values[i].id != id
  {
    if values != [] { IndexOfFinds(values[..|values| - 1], id); }
  }

  // One definition put over a list: in place of the one with its ID, or at the end.
  function Put<T>(values: seq<Named<T>>, value: Named<T>): (r: seq<Named<T>>)
    ensures |values| <= |r|
  {
    IndexOfFinds(values, value.id);
    match IndexOf(values, value.id)
    case Some(i) => values[i := value]
    case None => values + [value]
  }

  function Replaced<T>(base: seq<Named<T>>, replacements: seq<Named<T>>): seq<Named<T>> {
    if replacements == [] then base
    else Put(Replaced(base, replacements[..|replacements| - 1]), replacements[|replacements| - 1])
  }

  // The replacements whose IDs are new, in their order.
  function Added<T>(base: seq<Named<T>>, replacements: seq<Named<T>>): seq<Named<T>> {
    if replacements == [] then []
    else
      var last := replacements[|replacements| - 1];
      Added(base, replacements[..|replacements| - 1]) + (if last.id in Ids(base) then [] else [last])
  }

  // The list form of an overlay: a replaced ID keeps its place and gets its new value, others keep both,
  // new IDs follow in the order they come in; and no ID is there twice.
  ghost predicate IsOverlay<T(!new)>(base: seq<Named<T>>, replacements: seq<Named<T>>, result: seq<Named<T>>) {
    && NoDuplicates(Ids(result))
    && |base| <= |result|
    && (forall i :: 0 <= i < |base| ==> result[i].id == base[i].id)
    && result[|base|..] == Added(base, replacements)
    && (forall id, value :: Has(result, id, value) <==>
          Has(replacements, id, value) || (Has(base, id, value) && id !in Ids(replacements)))
  }

  lemma PutOverlays<T(!new)>(values: seq<Named<T>>, value: Named<T>)
    requires NoDuplicates(Ids(values))
    ensures NoDuplicates(Ids(Put(values, value)))
    ensures |values| <= |Put(values, value)| && forall i :: 0 <= i < |values| ==> Put(values, value)[i].id == values[i].id
    ensures forall id, v :: Has(Put(values, value), id, v) <==>
      Named(id, v) == value || (Has(values, id, v) && id != value.id)
  {
    IndexOfFinds(values, value.id);
    var r := Put(values, value);
    var k := if IndexOf(values, value.id).Some? then IndexOf(values, value.id).value else |values|;
    assert r[k] == value;
    assert forall i :: 0 <= i < |values| && i != k ==> r[i] == values[i] && r[i].id != value.id by {
      forall i | 0 <= i < |values| && i != k
        ensures r[i] == values[i] && r[i].id != value.id
      {
        if k < |values| { assert Ids(values)[i] != Ids(values)[k]; }
      }
    }
    forall i, j | 0 <= i < j < |r|
      ensures Ids(r)[i] != Ids(r)[j]
    {
      if i != k && j != k { assert Ids(values)[i] != Ids(values)[j]; }
    }
    forall id, v | Has(r, id, v)
      ensures Named(id, v) == value || (Has(values, id, v) && id != value.id)
    {
      var i :| 0 <= i < |r| && r[i] == Named(id, v);
      if i != k { assert values[i] == Named(id, v); }
    }
    forall id, v | Named(id, v) == value || (Has(values, id, v) && id != value.id)
      ensures Has(r, id, v)
    {
      if Named(id, v) != value {
        var i :| 0 <= i < |values| && values[i] == Named(id, v);
        assert r[i] == Named(id, v);
      }
    }
  }

  lemma {:induction false} ReplacedIsOverlay<T(!new)>(base: seq<Named<T>>, replacements: seq<Named<T>>)
    requires NoDuplicates(Ids(base)) && NoDuplicates(Ids(replacements))
    ensures IsOverlay(base, replacements, Replaced(base, replacements))
  {
    if replacements != [] {
      var rest, last := replacements[..|replacements| - 1], replacements[|replacements| - 1];
      assert NoDuplicates(Ids(rest)) by {
        forall i, j | 0 <= i < j < |rest| ensures Ids(rest)[i] != Ids(rest)[j] {
          assert Ids(replacements)[i] != Ids(replacements)[j];
        }
      }
      ReplacedIsOverlay(base, rest);
      PutOverlays(Replaced(base, rest), last);
      OneMoreReplacement(base, replacements);
      PutKeepsOrder(base, rest, last, Replaced(base, rest));
    }
  }

  lemma PutKeepsOrder<T(!new)>(base: seq<Named<T>>, rest: seq<Named<T>>, last: Named<T>, result: seq<Named<T>>)
    requires IsOverlay(base, rest, result) && last.id !in Ids(rest)
    ensures Put(result, last)[|base|..] == result[|base|..] + (if last.id in Ids(base) then [] else [last])
  {
    hide Added;
    IndexOfFinds(result, last.id);
    if last.id in Ids(base) {
      var i :| 0 <= i < |base| && Ids(base)[i] == last.id;
      assert result[i].id == last.id;
      var k := IndexOf(result, last.id).value;
      assert Ids(result)[k] == Ids(result)[i];
      assert k == i;
      assert Put(result, last)[|base|..] == result[|base|..];
    } else if IndexOf(result, last.id).Some? {
      var k := IndexOf(result, last.id).value;
      assert Has(result, last.id, result[k].value) by { assert result[k] == Named(last.id, result[k].value); }
      HasItsId(rest, last.id, result[k].value);
      HasItsId(base, last.id, result[k].value);
    }
  }

  lemma HasItsId<T(!new)>(values: seq<Named<T>>, id: string, value: T)
    ensures Has(values, id, value) ==> id in Ids(values)
  {
    if Has(values, id, value) {
      var i :| 0 <= i < |values| && values[i] == Named(id, value);
      assert Ids(values)[i] == id;
    }
  }

  lemma OneMoreReplacement<T(!new)>(base: seq<Named<T>>, replacements: seq<Named<T>>)
    requires replacements != [] && NoDuplicates(Ids(replacements))
    ensures var rest, last := replacements[..|replacements| - 1], replacements[|replacements| - 1];
            && last.id !in Ids(rest)
            && (forall id :: id in Ids(replacements) <==> id in Ids(rest) || id == last.id)
            && (forall id, v :: Has(replacements, id, v) <==> Has(rest, id, v) || Named(id, v) == last)
            && (forall id, v :: Has(rest, id, v) ==> id in Ids(rest))
  {
    var rest, last := replacements[..|replacements| - 1], replacements[|replacements| - 1];
    assert Ids(replacements) == Ids(rest) + [last.id];
    assert Ids(replacements)[|rest|] == last.id;
    forall i | 0 <= i < |rest|
      ensures Ids(rest)[i] != last.id
    {
      assert Ids(replacements)[i] != Ids(replacements)[|rest|];
    }
    assert replacements == rest + [last];
    forall id, v | Has(replacements, id, v)
      ensures Has(rest, id, v) || Named(id, v) == last
    {
      var i :| 0 <= i < |replacements| && replacements[i] == Named(id, v);
      if i < |rest| { assert rest[i] == Named(id, v); }
    }
    forall id, v | Has(rest, id, v) || Named(id, v) == last
      ensures Has(replacements, id, v)
    {
      if Named(id, v) != last {
        var i :| 0 <= i < |rest| && rest[i] == Named(id, v);
        assert replacements[i] == Named(id, v);
      } else {
        assert replacements[|rest|] == last;
      }
    }
    forall id, v | Has(rest, id, v)
      ensures id in Ids(rest)
    {
      var i :| 0 <= i < |rest| && rest[i] == Named(id, v);
      assert Ids(rest)[i] == id;
    }
  }

  // ---- Patches ----

  function Kept<T>(values: seq<Named<T>>, removed: set<string>): seq<Named<T>> {
    if values == [] then []
    else
      var last := values[|values| - 1];
      Kept(values[..|values| - 1], removed) + (if last.id in removed then [] else [last])
  }

  function PatchInputs<T>(base: seq<Named<T>>, patch: Patch<T>): Option<string> {
    if Repeated(Ids(base)).Some? then Repeated(Ids(base))
    else if patch.replace.Some? && Repeated(Ids(patch.replace.value)).Some? then Repeated(Ids(patch.replace.value))
    else if Repeated(patch.remove).Some? then Repeated(patch.remove)
    else Repeated(Ids(patch.add))
  }

  ghost function Patched<T>(base: seq<Named<T>>, patch: Patch<T>): seq<Named<T>> {
    Kept(if patch.replace.Some? then patch.replace.value else base, Elements(patch.remove)) + patch.add
  }

  method ApplyListPatch<T(!new)>(base: seq<Named<T>>, patch: Patch<T>) returns (result: Result<seq<Named<T>>, Error>)
    ensures result ==
      if PatchInputs(base, patch).Some? then Err(DuplicateInput(PatchInputs(base, patch).value))
      else if Repeated(Ids(Patched(base, patch))).Some? then Err(DuplicateFinal(Repeated(Ids(Patched(base, patch))).value))
      else Ok(Patched(base, patch))
  {
    var repeated := FindRepeated(Ids(base));
    if repeated.Some? { return Err(DuplicateInput(repeated.value)); }
    if patch.replace.Some? {
      repeated := FindRepeated(Ids(patch.replace.value));
      if repeated.Some? { return Err(DuplicateInput(repeated.value)); }
    }
    repeated := FindRepeated(patch.remove);
    if repeated.Some? { return Err(DuplicateInput(repeated.value)); }
    repeated := FindRepeated(Ids(patch.add));
    if repeated.Some? { return Err(DuplicateInput(repeated.value)); }
    var current := if patch.replace.Some? then patch.replace.value else base;
    var removed: set<string> := {};
    for i := 0 to |patch.remove|
      invariant removed == Elements(patch.remove[..i])
    {
      PrefixElements(patch.remove, i);
      removed := removed + {patch.remove[i]};
    }
    assert patch.remove[..|patch.remove|] == patch.remove;
    var values: seq<Named<T>> := [];
    for i := 0 to |current|
      invariant values == Kept(current[..i], removed)
    {
      assert current[..i + 1][..i] == current[..i];
      if current[i].id !in removed { values := values + [current[i]]; }
    }
    assert current[..|current|] == current;
    values := values + patch.add;
    repeated := FindRepeated(Ids(values));
    if repeated.Some? { return Err(DuplicateFinal(repeated.value)); }
    return Ok(values);
  }

  lemma {:induction false} KeptHasTheRest<T(!new)>(values: seq<Named<T>>, removed: set<string>)
    ensures forall id, v :: Has(Kept(values, removed), id, v) <==> Has(values, id, v) && id !in removed
  {
    hide Has;
    HasNone<T>();
    if values != [] {
      var rest, last := values[..|values| - 1], values[|values| - 1];
      KeptHasTheRest(rest, removed);
      HasOne(last);
      HasAppend(rest, [last]);
      HasAppend(Kept(rest, removed), if last.id in removed then [] else [last]);
      assert values == rest + [last];
    }
  }

  lemma HasNone<T(!new)>()
    ensures forall id: string, v: T :: !Has<T>([], id, v)
  {
  }

  lemma HasOne<T(!new)>(value: Named<T>)
    ensures forall id, v :: Has([value], id, v) <==> value == Named(id, v)
  {
    assert [value][0] == value;
  }

  lemma {:induction false} KeptIsUnique<T(!new)>(values: seq<Named<T>>, removed: set<string>)
    requires NoDuplicates(Ids(values))
    ensures NoDuplicates(Ids(Kept(values, removed)))
  {
    if values != [] {
      var rest, last := values[..|values| - 1], values[|values| - 1];
      var kept := Kept(rest, removed);
      assert Ids(rest) == Ids(values)[..|rest|];
      KeptIsUnique(rest, removed);
      KeptHasTheRest(rest, removed);
      forall i | 0 <= i < |kept|
        ensures kept[i].id != last.id
      {
        assert Has(kept, kept[i].id, kept[i].value);
        var j :| 0 <= j < |rest| && rest[j] == Named(kept[i].id, kept[i].value);
        assert Ids(values)[j] != Ids(values)[|rest|];
      }
      ApartJoin(kept, if last.id in removed then [] else [last]);
    }
  }

  lemma HasAppend<T(!new)>(a: seq<Named<T>>, b: seq<Named<T>>)
    ensures forall id, v :: Has(a + b, id, v) <==> Has(a, id, v) || Has(b, id, v)
  {
    forall id, v | Has(a, id, v) || Has(b, id, v)
      ensures Has(a + b, id, v)
    {
      if Has(a, id, v) {
        var i :| 0 <= i < |a| && a[i] == Named(id, v);
        assert (a + b)[i] == Named(id, v);
      } else {
        var i :| 0 <= i < |b| && b[i] == Named(id, v);
        assert (a + b)[|a| + i] == Named(id, v);
      }
    }
    forall id, v | Has(a + b, id, v)
      ensures Has(a, id, v) || Has(b, id, v)
    {
      var i :| 0 <= i < |a + b| && (a + b)[i] == Named(id, v);
      if i < |a| { assert a[i] == Named(id, v); } else { assert b[i - |a|] == Named(id, v); }
    }
  }

  // A patch with sound inputs fails exactly when it adds an ID that is there and not removed; otherwise the
  // result holds what was there and not removed, and what was added.
  lemma PatchFailsExactlyWhen<T(!new)>(base: seq<Named<T>>, patch: Patch<T>)
    requires PatchInputs(base, patch).None?
    ensures var current := if patch.replace.Some? then patch.replace.value else base;
            && (Repeated(Ids(Patched(base, patch))).Some? <==>
                  exists i, j :: 0 <= i < |current| && 0 <= j < |patch.add|
                    && current[i].id == patch.add[j].id && current[i].id !in patch.remove)
            && forall id, v :: Has(Patched(base, patch), id, v) <==>
                 Has(patch.add, id, v) || (Has(current, id, v) && id !in patch.remove)
  {
    var current := if patch.replace.Some? then patch.replace.value else base;
    var kept := Kept(current, Elements(patch.remove));
    RepeatedIsDuplicate(Ids(current));
    RepeatedIsDuplicate(Ids(patch.add));
    RepeatedIsDuplicate(Ids(Patched(base, patch)));
    KeptHasTheRest(current, Elements(patch.remove));
    KeptIsUnique(current, Elements(patch.remove));
    HasAppend(kept, patch.add);
    JoinedRepeat(kept, patch.add);
    forall i, j | 0 <= i < |kept| && 0 <= j < |patch.add| && kept[i].id == patch.add[j].id
      ensures exists k :: 0 <= k < |current| && current[k].id == patch.add[j].id && current[k].id !in patch.remove
    {
      assert Has(kept, kept[i].id, kept[i].value);
      var k :| 0 <= k < |current| && current[k] == Named(kept[i].id, kept[i].value);
    }
    forall i, j | 0 <= i < |current| && 0 <= j < |patch.add| && current[i].id == patch.add[j].id && current[i].id !in patch.remove
      ensures exists k :: 0 <= k < |kept| && kept[k].id == patch.add[j].id
    {
      assert Has(current, current[i].id, current[i].value);
      assert Has(kept, current[i].id, current[i].value);
      var k :| 0 <= k < |kept| && kept[k] == Named(current[i].id, current[i].value);
    }
  }

  lemma JoinedRepeat<T>(a: seq<Named<T>>, b: seq<Named<T>>)
    requires NoDuplicates(Ids(a)) && NoDuplicates(Ids(b))
    ensures NoDuplicates(Ids(a + b)) <==> forall i, j :: 0 <= i < |a| && 0 <= j < |b| ==> a[i].id != b[j].id
  {
    if NoDuplicates(Ids(a + b)) {
      forall i, j | 0 <= i < |a| && 0 <= j < |b|
        ensures a[i].id != b[j].id
      {
        assert Ids(a + b)[i] != Ids(a + b)[|a| + j];
      }
    }
    if forall i, j :: 0 <= i < |a| && 0 <= j < |b| ==> a[i].id != b[j].id { ApartJoin(a, b); }
  }

  lemma ApartJoin<T>(a: seq<Named<T>>, b: seq<Named<T>>)
    requires NoDuplicates(Ids(a)) && NoDuplicates(Ids(b))
    requires forall i, j :: 0 <= i < |a| && 0 <= j < |b| ==> a[i].id != b[j].id
    ensures NoDuplicates(Ids(a + b))
  {
    forall i, j | 0 <= i < j < |a + b|
      ensures Ids(a + b)[i] != Ids(a + b)[j]
    {
      if j < |a| {
        assert Ids(a)[i] != Ids(a)[j];
      } else if |a| <= i {
        assert Ids(b)[i - |a|] != Ids(b)[j - |a|];
      }
    }
  }

  // The ID reported is the one that repeats where all before it are distinct.
  lemma {:induction false} RepeatedIsFirst(ids: seq<string>, id: string)
    ensures Repeated(ids) == Some(id) <==> exists j :: 0 <= j < |ids| && ids[j] == id && id in ids[..j] && NoDuplicates(ids[..j])
  {
    if ids != [] {
      var rest, end := ids[..|ids| - 1], |ids| - 1;
      RepeatedIsFirst(rest, id);
      RepeatedIsDuplicate(rest);
      forall j | 0 <= j < |rest| ensures rest[..j] == ids[..j] && rest[j] == ids[j] {}
      if j :| 0 <= j < |ids| && ids[j] == id && id in ids[..j] && NoDuplicates(ids[..j]) {
        if j < end { assert rest[..j] == ids[..j] && rest[j] == id; }
      }
      if j :| 0 <= j < |rest| && rest[j] == id && id in rest[..j] && NoDuplicates(rest[..j]) {
        assert ids[j] == id && id in ids[..j] && NoDuplicates(ids[..j]);
      }
      if Repeated(rest).None? && ids[end] == id && id in rest { assert ids[..end] == rest; }
    }
  }

  // The inputs of a patch are sound exactly when each of its lists has distinct IDs.
  lemma InputsAreSoundExactlyWhen<T>(base: seq<Named<T>>, patch: Patch<T>)
    ensures PatchInputs(base, patch).None? <==>
      && NoDuplicates(Ids(base)) && (patch.replace.Some? ==> NoDuplicates(Ids(patch.replace.value)))
      && NoDuplicates(patch.remove) && NoDuplicates(Ids(patch.add))
  {
    hide NoDuplicates;
    RepeatedIsDuplicate(Ids(base));
    if patch.replace.Some? { RepeatedIsDuplicate(Ids(patch.replace.value)); }
    RepeatedIsDuplicate(patch.remove);
    RepeatedIsDuplicate(Ids(patch.add));
  }

  // What is kept of a list: the values at these places.
  ghost predicate PlacesOf<T>(places: seq<nat>, values: seq<Named<T>>, kept: seq<Named<T>>) {
    && |places| == |kept|
    && (forall i, j :: 0 <= i < j < |places| ==> places[i] < places[j])
    && forall i :: 0 <= i < |places| ==> places[i] < |values| && kept[i] == values[places[i]]
  }

  lemma OneMorePlace<T>(values: seq<Named<T>>, kept: seq<Named<T>>, places: seq<nat>, keep: bool)
    requires values != [] && PlacesOf(places, values[..|values| - 1], kept)
    ensures var end := |values| - 1;
            PlacesOf(places + (if keep then [end] else []), values, kept + (if keep then [values[end]] else []))
  {
    var end := |values| - 1;
    assert forall i :: 0 <= i < |places| ==> places[i] < end && values[..end][places[i]] == values[places[i]];
    if !keep { assert places + [] == places && kept + [] == kept; }
  }

  lemma {:induction false} KeptInPlace<T>(values: seq<Named<T>>, removed: set<string>) returns (places: seq<nat>)
    ensures PlacesOf(places, values, Kept(values, removed))
    ensures forall k :: k in places <==> 0 <= k < |values| && values[k].id !in removed
  {
    hide PlacesOf;
    places := [];
    if values == [] {
      NoPlaces(values);
    } else {
      var end: nat := |values| - 1;
      var front := KeptInPlace(values[..end], removed);
      OneMorePlace(values, Kept(values[..end], removed), front, values[end].id !in removed);
      places := front + (if values[end].id !in removed then [end] else []);
      assert forall k :: 0 <= k < end ==> values[..end][k] == values[k];
    }
  }

  lemma NoPlaces<T>(values: seq<Named<T>>)
    ensures PlacesOf([], values, [])
  {
  }

  // The result is what is kept of the base, or of the list that replaces it, in its order, with the added
  // values behind it in theirs.
  lemma PatchedInOrder<T>(base: seq<Named<T>>, patch: Patch<T>)
    ensures var current := if patch.replace.Some? then patch.replace.value else base;
            exists kept, places ::
              && Patched(base, patch) == kept + patch.add
              && PlacesOf(places, current, kept)
              && forall k :: k in places <==> 0 <= k < |current| && current[k].id !in patch.remove
  {
    var current := if patch.replace.Some? then patch.replace.value else base;
    var places := KeptInPlace(current, Elements(patch.remove));
    var kept := Kept(current, Elements(patch.remove));
    assert Patched(base, patch) == kept + patch.add;
    assert PlacesOf(places, current, kept);
  }
}
