/**
 * The selection state of the page-range selector in
 * src/features/extractor/components/page-range-selector.tsx: which rendered
 * pages (0-based) will be sent for extraction.
 */
module PageSelection {
  import opened Wrappers
  import opened JsSet
  import opened PageRange

  /** `images.map((_, i) => i)`: every page index. */
  function AllPages(n: nat): (r: seq<int>)
    ensures |r| == n && forall i :: 0 <= i < n ==> r[i] == i
    ensures Distinct(r) && Elems(r) == Interval(0, n)
  {
    var r := seq(n, i => i);
    assert forall x :: x in Elems(r) <==> 0 <= x < n by {
      forall x | 0 <= x < n ensures x in r {
        assert r[x] == x;
      }
    }
    r
  }

  class PageRangeSelector {
    /** `images.length` */
    const totalPages: nat
    /** The selected indices, a JavaScript `Set` in insertion order. */
    var selected: seq<int>
    var rangeInput: string

    predicate Valid()
      reads this
    {
      Distinct(selected)
    }

    /** Every page starts out selected, with an empty range field. */
    constructor (totalPages: nat)
      ensures Valid() && this.totalPages == totalPages
      ensures selected == AllPages(totalPages) && rangeInput == ""
    {
      this.totalPages := totalPages;
      selected := AllPages(totalPages);
      rangeInput := "";
    }

    /** `togglePage(index)`: flips whether `index` is selected and nothing else. */
    method TogglePage(index: int)
      requires Valid()
      modifies this
      ensures Valid() && rangeInput == old(rangeInput)
      ensures index in Elems(selected) <==> index !in Elems(old(selected))
      ensures forall j :: j != index ==> (j in Elems(selected) <==> j in Elems(old(selected)))
    {
      if index in selected {
        selected := Delete(selected, index);
      } else {
        selected := Add(selected, index);
      }
    }

    /** `selectAll()` */
    method SelectAll()
      modifies this
      ensures Valid() && rangeInput == old(rangeInput)
      ensures Elems(selected) == Interval(0, totalPages)
    {
      selected := AllPages(totalPages);
    }

    /** `deselectAll()` */
    method DeselectAll()
      modifies this
      ensures Valid() && rangeInput == old(rangeInput)
      ensures Elems(selected) == {}
    {
      selected := [];
    }

    /** Typing into the range field. */
    method SetRangeInput(text: string)
      modifies this
      ensures rangeInput == text && selected == old(selected)
    {
      rangeInput := text;
    }

    /** `applyRange()`: the pages the range field names replace the selection,
        unless it names none, in which case nothing changes. */
    method ApplyRange()
      requires Valid()
      modifies this
      ensures Valid() && rangeInput == old(rangeInput)
      ensures PageSet(rangeInput, totalPages) != {} ==> Elems(selected) == PageSet(rangeInput, totalPages)
      ensures PageSet(rangeInput, totalPages) == {} ==> selected == old(selected)
    {
      var indices := ParsePageRange(rangeInput, totalPages);
      EmptyElems(indices);
      if |indices| > 0 {
        StrictlyIncreasingDistinct(indices);
        selected := indices;
      }
    }

    /** `handleStart()`: the selection in ascending order, or nothing at all
        when no page is selected. */
    method HandleStart() returns (emitted: Option<seq<int>>)
      ensures emitted.Some? <==> selected != []
      ensures emitted.Some? ==> StrictlyIncreasing(emitted.value) && Elems(emitted.value) == Elems(selected)
    {
      var sorted := SortedMembers(selected);
      EmptyElems(sorted);
      EmptyElems(selected);
      if |sorted| > 0 {
        emitted := Some(sorted);
      } else {
        emitted := None;
      }
    }
  }

  lemma StrictlyIncreasingDistinct(r: seq<int>)
    requires StrictlyIncreasing(r)
    ensures Distinct(r)
  {
  }
}
