/**
  The palette store of the color picker: an ordered list of color entries,
  created with one default entry, and the three transforms the component
  applies to it (append, remove by id, recolor by id). Each transform builds
  a new list from the old one, as the component's state setter does.
 */
module Palette {

  /** One swatch: an opaque id and the color text the color input produced. */
  datatype ColorData = ColorData(id: string, color: string)

  /** Color of the initial entry and of every appended entry. */
  const DefaultColor: string := "#3b82f6"

  /** Id of the entry the palette starts with. */
  const InitialId: string := "1"

  /** The palette the component mounts with. */
  const Initial: seq<ColorData> := [ColorData(InitialId, DefaultColor)]

  /** The ids of a palette, in palette order. */
  function IdsOf(s: seq<ColorData>): (ids: seq<string>)
    ensures |ids| == |s|
    ensures forall i :: 0 <= i < |s| ==> ids[i] == s[i].id
  {
    seq(|s|, i requires 0 <= i < |s| => s[i].id)
  }

  /** No two entries of the palette share an id. */
  predicate DistinctIds(s: seq<ColorData>)
  {
    forall i, j :: 0 <= i < j < |s| ==> s[i].id != s[j].id
  }

  /** Number of entries whose id is `id`. */
  function Count(s: seq<ColorData>, id: string): (n: nat)
    ensures n <= |s|
    ensures n == 0 <==> id !in IdsOf(s)
  {
    if s == [] then 0
    else
      assert IdsOf(s) == [s[0].id] + IdsOf(s[1..]);
      (if s[0].id == id then 1 else 0) + Count(s[1..], id)
  }

  /** A color as the native color input produces it: "#" and six hex digits. */
  predicate IsHexColor(c: string)
  {
    |c| == 7 && c[0] == '#' &&
    forall i :: 1 <= i < 7 ==> '0' <= c[i] <= '9' || 'a' <= c[i] <= 'f' || 'A' <= c[i] <= 'F'
  }

  /** Every stored color is a hex color. */
  predicate AllHex(s: seq<ColorData>)
  {
    forall i :: 0 <= i < |s| ==> IsHexColor(s[i].color)
  }

  /** `r` is obtained from `s` by deleting elements, keeping the order of the rest. */
  predicate IsSubsequence(r: seq<ColorData>, s: seq<ColorData>)
    decreases |s|
  {
    if s == [] then r == []
    else IsSubsequence(r, s[1..]) || (r != [] && r[0] == s[0] && IsSubsequence(r[1..], s[1..]))
  }

  /** addColorPicker: append an entry with the caller-supplied id and the default color. */
  function Add(s: seq<ColorData>, newId: string): (r: seq<ColorData>)
    ensures |r| == |s| + 1
    ensures IdsOf(r) == IdsOf(s) + [newId]
    ensures r[|s|].color == DefaultColor
    ensures forall i :: 0 <= i < |s| ==> r[i] == s[i]
    ensures DistinctIds(s) && newId !in IdsOf(s) ==> DistinctIds(r)
  {
    s + [ColorData(newId, DefaultColor)]
  }

  /** The filter behind removeColorPicker: keep the entries whose id is not `id`. */
  function Without(s: seq<ColorData>, id: string): (r: seq<ColorData>)
    ensures |r| <= |s|
    ensures forall i :: 0 <= i < |r| ==> r[i].id != id
    ensures forall e :: e in r ==> e in s
  {
    if s == [] then []
    else if s[0].id == id then Without(s[1..], id)
    else [s[0]] + Without(s[1..], id)
  }

  /** removeColorPicker: filter out `id`, but only when more than one entry is left. */
  function Remove(s: seq<ColorData>, id: string): (r: seq<ColorData>)
    ensures |s| <= 1 ==> r == s
    ensures |r| <= |s|
  {
    if |s| > 1 then Without(s, id) else s
  }

  /** updateColor: every entry whose id is `id` gets color `c`; all else is kept. */
  function Update(s: seq<ColorData>, id: string, c: string): (r: seq<ColorData>)
    ensures |r| == |s|
    ensures forall i :: 0 <= i < |s| ==>
              r[i].id == s[i].id &&
              r[i].color == (if s[i].id == id then c else s[i].color)
  {
    if s == [] then []
    else [if s[0].id == id then ColorData(id, c) else s[0]] + Update(s[1..], id, c)
  }

  // ---------------------------------------------------------------------
  // Remove: exactly the entries with a different id, in order.
  // ---------------------------------------------------------------------

  /** The filtered list keeps the relative order of the kept entries. */
  lemma {:induction false} WithoutIsSubsequence(s: seq<ColorData>, id: string)
    ensures IsSubsequence(Without(s, id), s)
  {
    if s != [] {
      WithoutIsSubsequence(s[1..], id);
      if s[0].id != id {
        assert ([s[0]] + Without(s[1..], id))[1..] == Without(s[1..], id);
      }
    }
  }

  /** Every entry with another id survives the filter as often as it occurred; none with `id` does. */
  lemma {:induction false} WithoutMultiplicity(s: seq<ColorData>, id: string, e: ColorData)
    ensures multiset(Without(s, id))[e] == if e.id == id then 0 else multiset(s)[e]
  {
    if s != [] {
      WithoutMultiplicity(s[1..], id, e);
      assert s == [s[0]] + s[1..];
    }
  }

  /** The filter drops exactly the entries that carry `id`. */
  lemma {:induction false} WithoutLength(s: seq<ColorData>, id: string)
    ensures |Without(s, id)| == |s| - Count(s, id)
  {
    if s != [] {
      WithoutLength(s[1..], id);
    }
  }

  /** Filtering a concatenation filters each part. */
  lemma {:induction false} WithoutConcat(a: seq<ColorData>, b: seq<ColorData>, id: string)
    ensures Without(a + b, id) == Without(a, id) + Without(b, id)
  {
    if a != [] {
      assert (a + b)[1..] == a[1..] + b;
      WithoutConcat(a[1..], b, id);
    } else {
      assert a + b == b;
    }
  }

  /** An id that is not present leaves the filtered list unchanged. */
  lemma {:induction false} WithoutAbsent(s: seq<ColorData>, id: string)
    requires id !in IdsOf(s)
    ensures Without(s, id) == s
  {
    if s != [] {
      assert IdsOf(s[1..]) == IdsOf(s)[1..];
      WithoutAbsent(s[1..], id);
    }
  }

  /** With pairwise distinct ids, an id occurs at most once. */
  lemma {:induction false} CountDistinct(s: seq<ColorData>, id: string)
    requires DistinctIds(s)
    ensures Count(s, id) <= 1
  {
    if s != [] {
      assert DistinctIds(s[1..]);
      CountDistinct(s[1..], id);
      if s[0].id == id {
        assert IdsOf(s[1..]) == IdsOf(s)[1..];
        assert id !in IdsOf(s[1..]);
      }
    }
  }

  /** An id that is not present leaves the palette unchanged. */
  lemma RemoveAbsent(s: seq<ColorData>, id: string)
    requires id !in IdsOf(s)
    ensures Remove(s, id) == s
  {
    WithoutAbsent(s, id);
  }

  /** On a palette of two or more entries, remove yields exactly the entries
      whose id differs from `id`, each as often as before, in their old order. */
  lemma RemoveKeepsTheOthersInOrder(s: seq<ColorData>, id: string)
    requires |s| > 1
    ensures IsSubsequence(Remove(s, id), s)
    ensures forall e :: e in Remove(s, id) ==> e.id != id
    ensures forall e :: multiset(Remove(s, id))[e] == if e.id == id then 0 else multiset(s)[e]
    ensures |Remove(s, id)| == |s| - Count(s, id)
  {
    WithoutIsSubsequence(s, id);
    WithoutLength(s, id);
    forall e ensures multiset(Remove(s, id))[e] == if e.id == id then 0 else multiset(s)[e] {
      WithoutMultiplicity(s, id, e);
    }
  }

  /** With pairwise distinct ids, remove deletes at most one entry and never
      empties a non-empty palette. */
  lemma RemoveDistinct(s: seq<ColorData>, id: string)
    requires DistinctIds(s)
    ensures |Remove(s, id)| >= |s| - 1
    ensures |s| >= 1 ==> |Remove(s, id)| >= 1
    ensures id in IdsOf(s) && |s| > 1 ==> |Remove(s, id)| == |s| - 1
  {
    WithoutLength(s, id);
    CountDistinct(s, id);
  }

  /** Remove keeps the ids pairwise distinct. */
  lemma {:induction false} WithoutKeepsDistinct(s: seq<ColorData>, id: string)
    requires DistinctIds(s)
    ensures DistinctIds(Without(s, id))
  {
    if s != [] {
      assert DistinctIds(s[1..]);
      WithoutKeepsDistinct(s[1..], id);
      if s[0].id != id {
        var r := Without(s[1..], id);
        forall e | e in r ensures e.id != s[0].id {
          var k :| 0 <= k < |s[1..]| && s[1..][k] == e;
          assert s[k + 1] == e;
        }
        assert forall j :: 0 <= j < |r| ==> r[j] in r;
      }
    }
  }

  lemma RemoveKeepsDistinct(s: seq<ColorData>, id: string)
    requires DistinctIds(s)
    ensures DistinctIds(Remove(s, id))
  {
    WithoutKeepsDistinct(s, id);
  }

  /** Ids come from the clock and may repeat; then one remove can empty the palette. */
  lemma DuplicateIdsCanEmpty()
    ensures Remove([ColorData("7", "#000000"), ColorData("7", "#ffffff")], "7") == []
  {
  }

  /** Removing a freshly added entry restores the palette. */
  lemma RemoveUndoesAdd(s: seq<ColorData>, newId: string)
    requires |s| >= 1
    requires newId !in IdsOf(s)
    ensures Remove(Add(s, newId), newId) == s
  {
    WithoutConcat(s, [ColorData(newId, DefaultColor)], newId);
    WithoutAbsent(s, newId);
    assert Without([ColorData(newId, DefaultColor)], newId) == [];
  }

  // ---------------------------------------------------------------------
  // Update
  // ---------------------------------------------------------------------

  /** Update keeps the ids and their order, hence keeps them distinct. */
  lemma UpdateKeepsIds(s: seq<ColorData>, id: string, c: string)
    ensures IdsOf(Update(s, id, c)) == IdsOf(s)
    ensures DistinctIds(s) ==> DistinctIds(Update(s, id, c))
  {
  }

  /** An id that is not present leaves the palette unchanged. */
  lemma UpdateAbsent(s: seq<ColorData>, id: string, c: string)
    requires id !in IdsOf(s)
    ensures Update(s, id, c) == s
  {
    var r := Update(s, id, c);
    forall i | 0 <= i < |s| ensures r[i] == s[i] {
      assert IdsOf(s)[i] == s[i].id;
    }
  }

  /** The last update of an id wins. */
  lemma UpdateLastWins(s: seq<ColorData>, id: string, c1: string, c2: string)
    ensures Update(Update(s, id, c1), id, c2) == Update(s, id, c2)
  {
  }

  /** Updates of two different ids do not interfere. */
  lemma UpdateCommutes(s: seq<ColorData>, id1: string, c1: string, id2: string, c2: string)
    requires id1 != id2
    ensures Update(Update(s, id1, c1), id2, c2) == Update(Update(s, id2, c2), id1, c1)
  {
  }

  // ---------------------------------------------------------------------
  // Colors stay hex colors
  // ---------------------------------------------------------------------

  /** The initial palette, and every add, remove and update with a hex color,
      keep every stored color a hex color. */
  lemma {:induction false} TransformsKeepHex(s: seq<ColorData>, id: string, c: string)
    requires AllHex(s)
    ensures AllHex(Initial)
    ensures AllHex(Add(s, id))
    ensures AllHex(Remove(s, id))
    ensures IsHexColor(c) ==> AllHex(Update(s, id, c))
  {
    var r := Remove(s, id);
    forall i | 0 <= i < |r| ensures IsHexColor(r[i].color) {
      assert r[i] in r;
      var k :| 0 <= k < |s| && s[k] == r[i];
    }
  }
}
