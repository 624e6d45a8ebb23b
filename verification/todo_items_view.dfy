/**
 * The task list component: it splits the list it is given into a pending and a completed
 * section, orders each section, and shows a placeholder when the list is empty.
 */
module TodoItemsView {
  import opened Wrappers
  import opened Seqs
  import opened StableSort
  import opened ItemsService
  import App

  /** The `todoItems` prop: an array whose elements may be null, or something that is not an array. */
  datatype ItemsProp = ItemArray(elements: seq<Option<LocalItem>>) | NotAnArray

  /** What the component shows: the two sections in display order, and whether the placeholder shows. */
  datatype View = View(pending: seq<LocalItem>, completed: seq<LocalItem>, placeholder: bool)

  /** `Array.isArray(todoItems) ? todoItems : []`. */
  function Normalise(p: ItemsProp): seq<Option<LocalItem>> {
    match p
    case ItemArray(xs) => xs
    case NotAnArray => []
  }

  /** The elements that are not null, in order. */
  function NonNull(xs: seq<Option<LocalItem>>): (r: seq<LocalItem>)
    ensures forall x :: x in r <==> Some(x) in xs
    ensures |r| <= |xs|
  {
    if |xs| == 0 then []
    else
      assert xs == [xs[0]] + xs[1..];
      (if xs[0].Some? then [xs[0].value] else []) + NonNull(xs[1..])
  }

  function IsPending(): LocalItem -> bool {
    (x: LocalItem) => !x.completed
  }

  function IsCompleted(): LocalItem -> bool {
    (x: LocalItem) => x.completed
  }

  /** The pending comparator: higher `aiPriority || 0` first, then newer `createdAt` first. */
  function PendingBefore(): (LocalItem, LocalItem) -> bool {
    (a: LocalItem, b: LocalItem) =>
      if a.aiPriority != b.aiPriority then a.aiPriority > b.aiPriority else a.createdAt > b.createdAt
  }

  /** The completed comparator: newer `updatedAt` first. */
  function CompletedBefore(): (LocalItem, LocalItem) -> bool {
    (a: LocalItem, b: LocalItem) => a.updatedAt > b.updatedAt
  }

  lemma ComparatorsAreStrictWeakOrders()
    ensures StrictWeakOrder(PendingBefore())
    ensures StrictWeakOrder(CompletedBefore())
  {
  }

  /** One section: the items `keep` selects, sorted with `before`. */
  function Section(items: seq<LocalItem>, keep: LocalItem -> bool, before: (LocalItem, LocalItem) -> bool): (r: seq<LocalItem>)
    requires StrictWeakOrder(before)
    ensures multiset(r) == multiset(Filter(items, keep))
    ensures forall k :: 0 <= k < |r| ==> keep(r[k])
    ensures Sorted(r, before)
  {
    var kept := Filter(items, keep);
    var r := Sort(kept, before);
    assert forall k :: 0 <= k < |r| ==> r[k] in multiset(kept);
    r
  }

  /**
   * The component: every non-null item lands in exactly one section, each section is in its
   * comparator's order, and the placeholder shows exactly when the array (nulls counted) is empty.
   */
  function Render(p: ItemsProp): (v: View)
    ensures multiset(v.pending) + multiset(v.completed) == multiset(NonNull(Normalise(p)))
    ensures forall k :: 0 <= k < |v.pending| ==> !v.pending[k].completed
    ensures forall k :: 0 <= k < |v.completed| ==> v.completed[k].completed
    ensures Sorted(v.pending, PendingBefore()) && Sorted(v.completed, CompletedBefore())
    ensures v.placeholder <==> |Normalise(p)| == 0
  {
    var items := Normalise(p);
    var present := NonNull(items);
    ComparatorsAreStrictWeakOrders();
    FilterPartition(present, IsPending(), IsCompleted());
    View(Section(present, IsPending(), PendingBefore()), Section(present, IsCompleted(), CompletedBefore()), |items| == 0)
  }

  lemma {:induction false} NonNullOfNulls(n: nat)
    ensures NonNull(seq(n, _ => None)) == []
  {
    if n > 0 {
      var xs: seq<Option<LocalItem>> := seq(n, _ => None);
      assert xs[1..] == seq(n - 1, _ => None);
      NonNullOfNulls(n - 1);
    }
  }

  /** An array holding only nulls shows no section and no placeholder either. */
  lemma OnlyNullsShowNothing(n: nat)
    requires n > 0
    ensures var v := Render(ItemArray(seq(n, _ => None)));
      v.pending == [] && v.completed == [] && !v.placeholder
  {
    var xs: seq<Option<LocalItem>> := seq(n, _ => None);
    NonNullOfNulls(n);
    var v := Render(ItemArray(xs));
    assert |multiset(v.pending)| == 0 && |multiset(v.completed)| == 0;
  }

  /** Something that is not an array reads as an empty list. */
  lemma NotAnArrayShowsPlaceholder()
    ensures Render(NotAnArray) == View([], [], true)
  {
    var v := Render(NotAnArray);
    assert |multiset(v.pending)| == 0 && |multiset(v.completed)| == 0;
  }

  function Wrap(s: seq<LocalItem>): (r: seq<Option<LocalItem>>)
    ensures |r| == |s| && forall k :: 0 <= k < |s| ==> r[k] == Some(s[k])
  {
    seq(|s|, k requires 0 <= k < |s| => Some(s[k]))
  }

  lemma {:induction false} NonNullWrap(s: seq<LocalItem>)
    ensures NonNull(Wrap(s)) == s
    decreases |s|
  {
    if |s| > 0 {
      NonNullWrap(s[1..]);
      assert Wrap(s)[1..] == Wrap(s[1..]);
    }
  }

  /**
   * Given the screen's sorted list, the pending section is that list's pending items in the
   * screen's order: on pending items the two comparators agree, so the second sort keeps it.
   */
  lemma {:induction false} PendingSectionKeepsAppOrder(items: seq<LocalItem>)
    ensures Render(ItemArray(Wrap(App.SortedItems(items)))).pending == Filter(App.SortedItems(items), IsPending())
  {
    var sorted := App.SortedItems(items);
    var pending := Filter(sorted, IsPending());
    assert Sorted(sorted, App.AppBefore());
    FilterKeepsSorted(sorted, IsPending(), App.AppBefore());
    assert Sorted(pending, PendingBefore()) by {
      forall i, j | 0 <= i < j < |pending|
        ensures !PendingBefore()(pending[j], pending[i])
      {
        assert !App.AppBefore()(pending[j], pending[i]);
        assert !pending[i].completed && !pending[j].completed;
      }
    }
    ComparatorsAreStrictWeakOrders();
    SortOfSorted(pending, PendingBefore());
    NonNullWrap(sorted);
  }
}
