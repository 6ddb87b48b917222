/** The in-memory repositories and the generic filter over them.
    The source has one `Repository` template and two specialisations (for
    vehicles, keyed by a string, and customers, keyed by an int) whose
    bodies are identical; here one generic datatype is keyed by a function
    `key` that extracts an item's identifier.  Items compare by value, which
    stands in for the pointer comparison of `std::remove`. */
module Repositories {
  import opened Outcomes

  /** An insertion-ordered collection; `items` is what `getAll` returns. */
  datatype Repository<T> = Repository(items: seq<T>)

  /** `IsSubsequence(a, b)`: `a` is `b` with some elements dropped, in order. */
  ghost predicate IsSubsequence<T>(a: seq<T>, b: seq<T>)
    decreases |b|
  {
    |a| == 0 || (|b| > 0 && ((a[0] == b[0] && IsSubsequence(a[1..], b[1..])) || IsSubsequence(a, b[1..])))
  }

  /** `add`: append at the end, with no check on the item's identifier. */
  function Add<T>(r: Repository<T>, item: T): (r': Repository<T>)
    ensures |r'.items| == |r.items| + 1
    ensures r'.items[..|r.items|] == r.items
    ensures r'.items[|r.items|] == item
  {
    Repository(r.items + [item])
  }

  /** The order-preserving filter behind both `searchItems` and `remove`. */
  function Filter<T(==,!new)>(s: seq<T>, keep: T -> bool): (f: seq<T>)
    ensures |f| <= |s|
  {
    if |s| == 0 then []
    else if keep(s[0]) then [s[0]] + Filter(s[1..], keep) else Filter(s[1..], keep)
  }

  /** What filtering keeps: exactly the items satisfying `keep`, each as
      often as in `s`, in their original order. */
  lemma FilterKeeps<T(!new)>(s: seq<T>, keep: T -> bool)
    ensures forall x :: x in Filter(s, keep) <==> x in s && keep(x)
    ensures forall x :: multiset(Filter(s, keep))[x] == if keep(x) then multiset(s)[x] else 0
    ensures IsSubsequence(Filter(s, keep), s)
  {
    FilterCounts(s, keep);
    FilterSubsequence(s, keep);
  }

  lemma {:induction false} FilterCounts<T(!new)>(s: seq<T>, keep: T -> bool)
    ensures forall x :: multiset(Filter(s, keep))[x] == if keep(x) then multiset(s)[x] else 0
  {
    if |s| > 0 {
      FilterCounts(s[1..], keep);
      assert s == [s[0]] + s[1..];
    }
  }

  lemma {:induction false} FilterSubsequence<T(!new)>(s: seq<T>, keep: T -> bool)
    ensures IsSubsequence(Filter(s, keep), s)
  {
    if |s| > 0 {
      FilterSubsequence(s[1..], keep);
    }
  }

  /** `searchItems`: the items of `r` satisfying `matches`, in repository order. */
  function SearchItems<T(==,!new)>(r: Repository<T>, matches: T -> bool): (found: seq<T>)
    ensures |found| <= |r.items|
    ensures forall x :: x in found <==> x in r.items && matches(x)
    ensures forall x :: multiset(found)[x] == if matches(x) then multiset(r.items)[x] else 0
    ensures IsSubsequence(found, r.items)
  {
    FilterKeeps(r.items, matches);
    Filter(r.items, matches)
  }

  /** `remove`: erase every occurrence of `item`, keeping the others in order. */
  function Remove<T(==,!new)>(r: Repository<T>, item: T): (r': Repository<T>)
    ensures item !in r'.items
    ensures forall x :: x in r'.items <==> x in r.items && x != item
    ensures forall x :: x != item ==> multiset(r'.items)[x] == multiset(r.items)[x]
    ensures IsSubsequence(r'.items, r.items)
    ensures |r'.items| <= |r.items|
  {
    FilterKeeps(r.items, x => x != item);
    Repository(Filter(r.items, x => x != item))
  }

  /** `clear`: afterwards `getAll` is empty. */
  function Clear<T>(r: Repository<T>): (r': Repository<T>)
    ensures |r'.items| == 0
  {
    Repository([])
  }

  /** Position of the first item whose identifier is `id`. */
  function FindIndex<T, K(==)>(s: seq<T>, key: T -> K, id: K): (o: Option<nat>)
    ensures o.Some? ==> o.value < |s| && key(s[o.value]) == id
    ensures o.Some? ==> forall j :: 0 <= j < o.value ==> key(s[j]) != id
    ensures o.None? <==> forall j :: 0 <= j < |s| ==> key(s[j]) != id
  {
    if |s| == 0 then None
    else if key(s[0]) == id then Some(0)
    else match FindIndex(s[1..], key, id)
      case None => None
      case Some(i) => Some(i + 1)
  }

  /** `findById`: the first item whose identifier is `id`, or none. */
  function FindById<T, K(==)>(r: Repository<T>, key: T -> K, id: K): (o: Option<T>)
    ensures o.Some? ==> key(o.value) == id
    ensures o.Some? ==> exists i :: 0 <= i < |r.items| && r.items[i] == o.value
                                 && forall j :: 0 <= j < i ==> key(r.items[j]) != id
    ensures o.None? <==> forall x :: x in r.items ==> key(x) != id
  {
    match FindIndex(r.items, key, id)
    case None => None
    case Some(i) => Some(r.items[i])
  }

  /** Replace the item at position `i`: a held object mutated in place. */
  function UpdateAt<T>(r: Repository<T>, i: nat, item: T): (r': Repository<T>)
    requires i < |r.items|
    ensures |r'.items| == |r.items| && r'.items[i] == item
    ensures forall j :: 0 <= j < |r.items| && j != i ==> r'.items[j] == r.items[j]
  {
    Repository(r.items[i := item])
  }

  /** An always-true filter returns the whole repository, an always-false one
      returns nothing. */
  lemma {:induction false} FilterExtremes<T(!new)>(s: seq<T>)
    ensures Filter(s, _ => true) == s
    ensures Filter(s, _ => false) == []
  {
    if |s| > 0 {
      FilterExtremes(s[1..]);
      assert s == [s[0]] + s[1..];
    }
  }

  lemma SearchItemsExtremes<T(!new)>(r: Repository<T>)
    ensures SearchItems(r, _ => true) == r.items
    ensures SearchItems(r, _ => false) == []
  {
    FilterExtremes(r.items);
  }

  /** `add` never rejects a duplicate: after adding an item whose identifier is
      already present, `findById` still answers with the earlier item, and the
      lookups of every other identifier are unchanged. */
  lemma {:induction false} AddThenFind<T, K>(r: Repository<T>, key: T -> K, item: T, id: K)
    ensures FindById(Add(r, item), key, id)
         == (if FindById(r, key, id).Some? then FindById(r, key, id)
             else if key(item) == id then Some(item) else None)
  {
    var s := r.items + [item];
    match FindIndex(r.items, key, id)
    case Some(i) =>
      assert s[i] == r.items[i];
      assert FindIndex(s, key, id) == Some(i) by { FindIndexPrefix(r.items, [item], key, id); }
    case None =>
      FindIndexPrefix(r.items, [item], key, id);
  }

  /** Looking up in `a + b` finds the match in `a` when there is one, and
      otherwise the match in `b`, shifted by `|a|`. */
  lemma {:induction false} FindIndexPrefix<T, K>(a: seq<T>, b: seq<T>, key: T -> K, id: K)
    ensures FindIndex(a + b, key, id)
         == match FindIndex(a, key, id)
            case Some(i) => Some(i)
            case None => match FindIndex(b, key, id)
                         case Some(i) => Some(|a| + i)
                         case None => None
    decreases |a|
  {
    if |a| > 0 {
      assert (a + b)[1..] == a[1..] + b;
      FindIndexPrefix(a[1..], b, key, id);
    } else {
      assert a + b == b;
    }
  }

  /** `remove` is the filter that keeps everything but the removed item; an
      item that is not present leaves the repository as it was. */
  lemma RemoveIsFilter<T(!new)>(r: Repository<T>, item: T)
    ensures Remove(r, item).items == SearchItems(r, x => x != item)
    ensures item !in r.items ==> Remove(r, item) == r
  {
    if item !in r.items {
      FilterKeepsAll(r.items, x => x != item);
    }
  }

  lemma {:induction false} FilterKeepsAll<T(!new)>(s: seq<T>, keep: T -> bool)
    requires forall x :: x in s ==> keep(x)
    ensures Filter(s, keep) == s
  {
    if |s| > 0 {
      FilterKeepsAll(s[1..], keep);
      assert s == [s[0]] + s[1..];
    }
  }

  /** Lookups depend only on the identifiers: two sequences with the same
      identifiers position by position answer every lookup alike. */
  lemma {:induction false} FindIndexSameKeys<T, K>(s: seq<T>, t: seq<T>, key: T -> K, id: K)
    requires |s| == |t|
    requires forall j :: 0 <= j < |s| ==> key(s[j]) == key(t[j])
    ensures FindIndex(s, key, id) == FindIndex(t, key, id)
  {
    if |s| > 0 {
      FindIndexSameKeys(s[1..], t[1..], key, id);
    }
  }

  /** Replacing the item that `findById` finds for its identifier by an item
      with the same identifier: that lookup now answers the new item, and
      every other lookup is unchanged. */
  lemma FindAfterUpdate<T, K>(r: Repository<T>, key: T -> K, i: nat, item: T, id: K)
    requires i < |r.items| && key(item) == key(r.items[i])
    requires FindIndex(r.items, key, key(item)) == Some(i)
    ensures FindIndex(UpdateAt(r, i, item).items, key, id) == FindIndex(r.items, key, id)
    ensures FindById(UpdateAt(r, i, item), key, id)
         == if id == key(item) then Some(item) else FindById(r, key, id)
  {
    FindIndexSameKeys(r.items, UpdateAt(r, i, item).items, key, id);
  }

  /** No two items share an identifier. */
  ghost predicate UniqueKeys<T, K>(s: seq<T>, key: T -> K) {
    forall i, j :: 0 <= i < j < |s| ==> key(s[i]) != key(s[j])
  }

  /** Filtering keeps identifiers unique. */
  lemma {:induction false} FilterUniqueKeys<T(!new), K>(s: seq<T>, keep: T -> bool, key: T -> K)
    requires UniqueKeys(s, key)
    ensures UniqueKeys(Filter(s, keep), key)
  {
    if |s| > 0 {
      FilterUniqueKeys(s[1..], keep, key);
      var rest := Filter(s[1..], keep);
      FilterKeeps(s[1..], keep);
      if keep(s[0]) {
        forall j | 0 <= j < |rest| ensures key(rest[j]) != key(s[0]) {
          assert rest[j] in s[1..];
        }
        assert Filter(s, keep) == [s[0]] + rest;
      }
    }
  }

  /** With unique identifiers, filtering leaves the lookup of every kept
      item's identifier unchanged. */
  lemma {:induction false} FindAfterFilter<T(!new), K>(s: seq<T>, keep: T -> bool, key: T -> K, id: K)
    requires UniqueKeys(s, key)
    requires forall x :: x in s && key(x) == id ==> keep(x)
    ensures FindById(Repository(Filter(s, keep)), key, id) == FindById(Repository(s), key, id)
  {
    if |s| > 0 {
      FindAfterFilter(s[1..], keep, key, id);
      if keep(s[0]) {
        assert Filter(s, keep) == [s[0]] + Filter(s[1..], keep);
      }
    }
  }

  /** With unique identifiers, removing an item forgets its identifier and
      leaves every other lookup as it was. */
  lemma RemoveForgets<T(!new), K>(r: Repository<T>, key: T -> K, item: T)
    requires UniqueKeys(r.items, key) && item in r.items
    ensures FindById(Remove(r, item), key, key(item)).None?
    ensures forall id :: id != key(item) ==> FindById(Remove(r, item), key, id) == FindById(r, key, id)
  {
    RemoveIsFilter(r, item);
    var f := Filter(r.items, x => x != item);
    assert Remove(r, item).items == f;
    var i :| 0 <= i < |r.items| && r.items[i] == item;
    forall x | x in f ensures key(x) != key(item) {
      var j :| 0 <= j < |r.items| && r.items[j] == x;
      assert j != i;
    }
    forall id | id != key(item) ensures FindById(Remove(r, item), key, id) == FindById(r, key, id) {
      FindAfterFilter(r.items, x => x != item, key, id);
    }
  }

  /** Removing an item keeps identifiers unique. */
  lemma RemoveUniqueKeys<T(!new), K>(r: Repository<T>, key: T -> K, item: T)
    requires UniqueKeys(r.items, key)
    ensures UniqueKeys(Remove(r, item).items, key)
  {
    FilterUniqueKeys(r.items, x => x != item, key);
    assert Remove(r, item).items == Filter(r.items, x => x != item);
  }

  /** `remove` on a non-empty sequence, one item at a time. */
  lemma RemoveUnfold<T(!new)>(s: seq<T>, item: T)
    requires |s| > 0
    ensures Remove(Repository(s), item).items
         == (if s[0] == item then [] else [s[0]]) + Remove(Repository(s[1..]), item).items
  {
  }

  /** Filtering one more item at the end of a prefix: the filtered prefix
      grows by that item exactly when it is kept.  This is the step of the
      loops that build a search result. */
  lemma {:induction false} FilterSnoc<T(!new)>(s: seq<T>, x: T, keep: T -> bool)
    ensures Filter(s + [x], keep) == Filter(s, keep) + (if keep(x) then [x] else [])
  {
    if |s| == 0 {
      assert s + [x] == [x];
    } else {
      assert (s + [x])[1..] == s[1..] + [x];
      FilterSnoc(s[1..], x, keep);
    }
  }

  /** Two filters that agree on every item of `s` select the same items. */
  lemma {:induction false} FilterCongruent<T(!new)>(s: seq<T>, f: T -> bool, g: T -> bool)
    requires forall x :: x in s ==> f(x) == g(x)
    ensures Filter(s, f) == Filter(s, g)
  {
    if |s| > 0 {
      FilterCongruent(s[1..], f, g);
    }
  }

  /** One step of a loop that filters `s` from the front: the filtered
      prefix of length `i + 1` extends that of length `i`. */
  lemma FilterPrefixStep<T(!new)>(s: seq<T>, i: nat, keep: T -> bool)
    requires i < |s|
    ensures Filter(s[..i + 1], keep) == Filter(s[..i], keep) + (if keep(s[i]) then [s[i]] else [])
  {
    assert s[..i + 1] == s[..i] + [s[i]];
    FilterSnoc(s[..i], s[i], keep);
  }

  /** With unique identifiers, at most one item has a given identifier. */
  lemma SameKeyAtMostOne<T, K>(s: seq<T>, key: T -> K, id: K)
    requires UniqueKeys(s, key)
    requires forall i :: 0 <= i < |s| ==> key(s[i]) == id
    ensures |s| <= 1
  {
    FirstTwoKeysDiffer(s, key);
  }

  lemma FirstTwoKeysDiffer<T, K>(s: seq<T>, key: T -> K)
    requires UniqueKeys(s, key)
    ensures |s| >= 2 ==> key(s[0]) != key(s[1])
  {
  }

  /** With unique keys over `s + rest`, the first key of `rest` is not yet
      in `s`. */
  lemma LaterKeyIsNew<T, K>(s: seq<T>, rest: seq<T>, key: T -> K)
    requires UniqueKeys(s + rest, key) && |rest| > 0
    ensures FindById(Repository(s), key, key(rest[0])).None?
  {
    forall x | x in s
      ensures key(x) != key(rest[0])
    {
      var i :| 0 <= i < |s| && s[i] == x;
      assert (s + rest)[i] == x && (s + rest)[|s|] == rest[0];
    }
  }

  /** Moving the first element of `b` to the end of `a`. */
  lemma ConcatShift<T>(a: seq<T>, b: seq<T>)
    requires |b| > 0
    ensures (a + [b[0]]) + b[1..] == a + b
  {
  }

  /** Sequences with the same key at every position agree on uniqueness. */
  lemma SameKeysUnique<T, K>(s: seq<T>, t: seq<T>, key: T -> K)
    requires |s| == |t| && forall i :: 0 <= i < |s| ==> key(s[i]) == key(t[i])
    requires UniqueKeys(s, key)
    ensures UniqueKeys(t, key)
  {
  }
}
