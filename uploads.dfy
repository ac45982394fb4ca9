/**
 * What both pages share around the asset store: the values they exchange with
 * it, and the list logic they wrap around `list()` — keep the assets under the
 * user's upload prefix, sort them newest first by `encodings[0].modified`, and
 * drop records by key after a delete.
 */
module Uploads {
  import opened Wrappers
  import opened JsArray
  import opened JsText

  /** An entry of the asset listing: its key and the `modified` time of its first encoding. */
  datatype Asset = Asset(key: string, modified: int)

  /** A file chosen in the browser's file picker. */
  datatype File = File(name: string, size: nat)

  /** The arguments of `batch.store(file, { path, fileName })`. */
  datatype StoreRequest = StoreRequest(path: string, fileName: string)

  /** The upload progress cell: `undefined`, `0`, or the last `current / total` reported, kept as the pair. */
  datatype Progress = Undefined | Zero | Ratio(current: nat, total: nat)

  /** One `onProgress({ current, total })` call of `batch.commit`. */
  datatype Report = Report(current: nat, total: nat)

  /** The progress cell after the commit reported `reports`, starting from `0`: the last report wins. */
  function LastProgress(reports: seq<Report>): (p: Progress)
    ensures reports == [] ==> p == Zero
    ensures reports != [] ==> p == Ratio(reports[|reports| - 1].current, reports[|reports| - 1].total)
  {
    if reports == [] then Zero
    else Ratio(reports[|reports| - 1].current, reports[|reports| - 1].total)
  }

  /**
   * The cell after `onProgress` ran `setProgress` once per report, in order,
   * starting from `p`: each report overwrites the one before.
   */
  function AfterReports(p: Progress, reports: seq<Report>): Progress
    decreases |reports|
  {
    if reports == [] then p
    else AfterReports(Ratio(reports[0].current, reports[0].total), reports[1..])
  }

  /** Overwriting the cell report by report leaves the last report, or the starting value when none arrived. */
  lemma {:induction false} AfterReportsIsLast(p: Progress, reports: seq<Report>)
    ensures reports != [] ==> AfterReports(p, reports) == LastProgress(reports)
    ensures reports == [] ==> AfterReports(p, reports) == p
    decreases |reports|
  {
    if |reports| > 1 {
      AfterReportsIsLast(Ratio(reports[0].current, reports[0].total), reports[1..]);
      assert reports[1..][|reports| - 2] == reports[|reports| - 1];
    }
  }

  function KeyIsNot<R>(keyOf: R -> string, key: string): R -> bool {
    (u: R) => keyOf(u) != key
  }

  /** `prev.filter(e => e.key !== key)`: every row with that key goes, every other row stays. */
  function WithoutKey<R(!new)>(rows: seq<R>, keyOf: R -> string, key: string): (r: seq<R>)
    ensures forall u :: multiset(r)[u] == if keyOf(u) == key then 0 else multiset(rows)[u]
    ensures (forall i :: 0 <= i < |rows| ==> keyOf(rows[i]) != key) ==> r == rows
  {
    var r := Filter(rows, KeyIsNot(keyOf, key));
    assert forall u :: multiset(r)[u] == if keyOf(u) == key then 0 else multiset(rows)[u] by {
      forall u { FilterCounts(rows, KeyIsNot(keyOf, key), u); }
    }
    assert (forall i :: 0 <= i < |rows| ==> keyOf(rows[i]) != key) ==> r == rows by {
      if forall i :: 0 <= i < |rows| ==> keyOf(rows[i]) != key {
        FilterKeepsAll(rows, KeyIsNot(keyOf, key));
      }
    }
    r
  }

  /** Removing a key works on the two parts of a list separately: the kept rows stay in order. */
  lemma WithoutKeyAppend<R(!new)>(a: seq<R>, b: seq<R>, keyOf: R -> string, key: string)
    ensures WithoutKey(a + b, keyOf, key) == WithoutKey(a, keyOf, key) + WithoutKey(b, keyOf, key)
  {
    FilterAppend(a, b, KeyIsNot(keyOf, key));
  }

  // ---------------------------------------------------------------------------
  // the user's namespace
  // ---------------------------------------------------------------------------

  /** `/uploads/${principal?.toString() || ''}`: the prefix the listing filters on. */
  function ListingPrefix(principal: Option<string>): (prefix: string)
    ensures StartsWith(prefix, "/uploads/")
    ensures principal.None? ==> prefix == "/uploads/"
  {
    "/uploads/" + OrEmpty(principal)
  }

  /** `/uploads/${principal?.toString()}`: the path uploads are stored under. */
  function UploadPath(principal: Option<string>): (path: string)
    ensures StartsWith(path, "/uploads/")
    ensures principal.None? ==> path == "/uploads/undefined"
  {
    "/uploads/" + TemplateText(principal)
  }

  /**
   * Whatever is stored under the upload path is found by the listing prefix
   * of the same principal — with no principal, under `/uploads/undefined`,
   * which the bare `/uploads/` prefix also matches.
   */
  lemma UploadedKeyIsListed(principal: Option<string>, key: string)
    requires StartsWith(key, UploadPath(principal))
    ensures StartsWith(key, ListingPrefix(principal))
  {
    assert StartsWith(UploadPath(principal), ListingPrefix(principal));
  }

  predicate Owned(prefix: string, a: Asset) {
    StartsWith(a.key, prefix)
  }

  function OwnedBy(prefix: string): Asset -> bool {
    (a: Asset) => Owned(prefix, a)
  }

  /** `assets.filter(asset => asset.key.startsWith(prefix))`. */
  function KeepOwned(assets: seq<Asset>, prefix: string): (owned: seq<Asset>)
    ensures forall a :: multiset(owned)[a] == if StartsWith(a.key, prefix) then multiset(assets)[a] else 0
    ensures forall a :: a in owned <==> a in assets && StartsWith(a.key, prefix)
  {
    var owned := Filter(assets, OwnedBy(prefix));
    assert forall a :: multiset(owned)[a] == if StartsWith(a.key, prefix) then multiset(assets)[a] else 0 by {
      forall a { FilterCounts(assets, OwnedBy(prefix), a); }
    }
    owned
  }

  /**
   * The prefix has no trailing slash: whatever is listed for a principal `q` is
   * also listed for every principal `p` that `q` starts with, and for an absent
   * principal, whose prefix is just "/uploads/".
   */
  lemma ListingPrefixWidens(p: string, q: string, key: string)
    requires StartsWith(q, p)
    requires StartsWith(key, ListingPrefix(Some(q)))
    ensures StartsWith(key, ListingPrefix(Some(p)))
    ensures StartsWith(key, ListingPrefix(None))
  {
    var pre := "/uploads/" + p;
    assert ListingPrefix(Some(q)) == pre + q[|p|..];
    assert pre <= ListingPrefix(Some(q));
  }

  // ---------------------------------------------------------------------------
  // newest first (`sort((a, b) => Number(b.modified - a.modified))`)
  // ---------------------------------------------------------------------------

  /** Non-increasing by `modified`. */
  ghost predicate NewestFirst(s: seq<Asset>) {
    forall i, j :: 0 <= i < j < |s| ==> s[i].modified >= s[j].modified
  }

  lemma NewestFirstCons(x: Asset, s: seq<Asset>)
    requires NewestFirst(s)
    requires forall y :: y in s ==> y.modified <= x.modified
    ensures NewestFirst([x] + s)
  {
    var r := [x] + s;
    forall i, j | 0 <= i < j < |r| ensures r[i].modified >= r[j].modified {
      if i > 0 {
        assert r[i] == s[i - 1] && r[j] == s[j - 1];
      } else {
        assert r[j] == s[j - 1] && r[j] in s;
      }
    }
  }

  /** Puts `a` before the first element that is not newer than it. */
  function InsertByRecency(a: Asset, s: seq<Asset>): (r: seq<Asset>)
    ensures |r| == |s| + 1
    ensures multiset(r) == multiset(s) + multiset{a}
    decreases |s|
  {
    if s == [] || s[0].modified <= a.modified then [a] + s
    else
      assert s == [s[0]] + s[1..];
      [s[0]] + InsertByRecency(a, s[1..])
  }

  /** Inserting into a newest-first sequence keeps it newest first. */
  lemma {:induction false} InsertKeepsNewestFirst(a: Asset, s: seq<Asset>)
    requires NewestFirst(s)
    ensures NewestFirst(InsertByRecency(a, s))
    decreases |s|
  {
    if s == [] || s[0].modified <= a.modified {
      NewestFirstCons(a, s);
    } else {
      var tail := InsertByRecency(a, s[1..]);
      InsertKeepsNewestFirst(a, s[1..]);
      HeadIsNewest(s);
      forall y | y in tail ensures y.modified <= s[0].modified {
        assert y in multiset(tail);
        if y != a {
          assert y in multiset(s[1..]);
        }
      }
      NewestFirstCons(s[0], tail);
    }
  }

  /** In a newest-first sequence no later element is newer than the first. */
  lemma HeadIsNewest(s: seq<Asset>)
    requires NewestFirst(s) && s != []
    ensures forall y :: y in s[1..] ==> y.modified <= s[0].modified
  {
    forall y | y in s[1..] ensures y.modified <= s[0].modified {
      var k :| 0 <= k < |s| - 1 && s[1..][k] == y;
      assert s[k + 1] == y;
    }
  }

  /**
   * The comparator orders by descending `modified`; `Array.prototype.sort` is
   * stable, so ties keep their listing order. Modelled as insertion sort.
   */
  function SortByRecency(s: seq<Asset>): (r: seq<Asset>)
    ensures multiset(r) == multiset(s)
    ensures NewestFirst(r)
    decreases |s|
  {
    if s == [] then []
    else
      assert s == [s[0]] + s[1..];
      var sorted := SortByRecency(s[1..]);
      InsertKeepsNewestFirst(s[0], sorted);
      InsertByRecency(s[0], sorted)
  }

  function ModifiedAt(m: int): Asset -> bool {
    (a: Asset) => a.modified == m
  }

  /** Inserting `a` puts it before every element of its own age. */
  lemma {:induction false} InsertKeepsTies(a: Asset, s: seq<Asset>, m: int)
    ensures Filter(InsertByRecency(a, s), ModifiedAt(m))
         == (if a.modified == m then [a] else []) + Filter(s, ModifiedAt(m))
    decreases |s|
  {
    var at := ModifiedAt(m);
    if s == [] || s[0].modified <= a.modified {
      FilterAppend([a], s, at);
    } else {
      InsertKeepsTies(a, s[1..], m);
      FilterAppend([s[0]], InsertByRecency(a, s[1..]), at);
      FilterAppend([s[0]], s[1..], at);
      assert [s[0]] + s[1..] == s;
      if a.modified == m {
        assert Filter([s[0]], at) == [];
      }
    }
  }

  /** Stability: for every age, the assets of that age appear in the same order before and after sorting. */
  lemma {:induction false} SortIsStable(s: seq<Asset>, m: int)
    ensures Filter(SortByRecency(s), ModifiedAt(m)) == Filter(s, ModifiedAt(m))
    decreases |s|
  {
    if s != [] {
      SortIsStable(s[1..], m);
      InsertKeepsTies(s[0], SortByRecency(s[1..]), m);
      FilterAppend([s[0]], s[1..], ModifiedAt(m));
      assert [s[0]] + s[1..] == s;
    }
  }

  /** What the listing chain promises before the display mapping: a newest-first permutation of the owned assets. */
  ghost predicate IsNewestFirstOrderOf(sorted: seq<Asset>, assets: seq<Asset>) {
    multiset(sorted) == multiset(assets) && NewestFirst(sorted)
  }
}
