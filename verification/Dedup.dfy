/** `deduplicate` of app/ingestion/review.py: exact and greedy near-duplicate removal, with the
    rows' ids and hashes filled in place. */
module Dedup {
  import opened Common

  /** The functions of a row that the algorithm treats as given: the normalized identity text,
      its token set, its digest, and the digest of the upstream text in a made-up id. */
  datatype Text = Text(identity: string, tokens: set<string>, contentHash: string, idDigest: string)

  class Row {
    const source: string
    const text: Text
    var id: Option<string>
    var contentHash: Option<string>

    constructor (source: string, text: Text, id: Option<string>)
      ensures this.source == source && this.text == text && this.id == id && this.contentHash.None?
    {
      this.source, this.text, this.id, this.contentHash := source, text, id, None;
    }

    /** `_stable_id`: the existing id unless it is missing or empty. */
    function StableId(): string
      reads this`id
    {
      if Truthy(id) then id.value else source + "-" + text.idDigest
    }
  }

  datatype Duplicate = Duplicate(duplicateId: string, canonicalId: string, exact: bool, similarity: real)

  function Jaccard(a: set<string>, b: set<string>): real {
    if a == {} || b == {} then 0.0
    else
      assert a <= a + b;
      if |a + b| == 0 then 0.0 else |a * b| as real / |a + b| as real
  }

  /** Similarity lies between 0 and 1 and does not depend on the order of the two rows. */
  lemma JaccardBounds(a: set<string>, b: set<string>)
    ensures 0.0 <= Jaccard(a, b) <= 1.0
    ensures Jaccard(a, b) == Jaccard(b, a)
    ensures a != {} ==> Jaccard(a, a) == 1.0
  {
    assert a + b == b + a && a * b == b * a;
    assert a + b == (a * b) + ((a + b) - (a * b));
    assert |a * b| <= |a + b|;
    assert a + a == a && a * a == a;
    Fraction(|a * b|, |a + b|);
  }

  lemma Fraction(n: nat, d: nat)
    requires n <= d
    ensures d > 0 ==> 0.0 <= n as real / d as real <= 1.0
  {
  }

  /** The later row is a near duplicate of the earlier one. */
  predicate Near(later: Row, earlier: Row) {
    && |later.text.tokens| >= 5
    && earlier.source == later.source
    && Jaccard(later.text.tokens, earlier.text.tokens) >= 0.94
  }

  predicate SameContent(a: Row, b: Row) {
    a.text.contentHash == b.text.contentHash
  }

  /** Some row before position `k` of `kept` makes `r` redundant. */
  predicate Redundant(r: Row, kept: seq<Row>, k: nat)
    requires k <= |kept|
  {
    exists j :: 0 <= j < k && (SameContent(r, kept[j]) || Near(r, kept[j]))
  }

  /** `kept` is free of what the function removes. */
  ghost predicate Distinct(kept: seq<Row>) {
    forall i :: 0 <= i < |kept| ==> !Redundant(kept[i], kept, i)
  }

  /** The rows of `rows[..n]` that the greedy pass keeps, by position. */
  function KeptUpTo(rows: seq<Row>, n: nat): (kept: seq<Row>)
    requires n <= |rows|
    ensures |kept| <= n
  {
    if n == 0 then []
    else
      var before := KeptUpTo(rows, n - 1);
      if Redundant(rows[n - 1], before, |before|) then before else before + [rows[n - 1]]
  }

  function Kept(rows: seq<Row>): seq<Row> {
    KeptUpTo(rows, |rows|)
  }

  lemma {:induction false} KeptAreDistinct(rows: seq<Row>, n: nat)
    requires n <= |rows|
    ensures Distinct(KeptUpTo(rows, n))
    ensures forall r :: r in KeptUpTo(rows, n) ==> r in rows[..n]
  {
    if n > 0 {
      KeptAreDistinct(rows, n - 1);
      var before := KeptUpTo(rows, n - 1);
      assert rows[..n] == rows[..n - 1] + [rows[n - 1]];
      var kept := KeptUpTo(rows, n);
      forall i | 0 <= i < |kept|
        ensures !Redundant(kept[i], kept, i)
      {
        if i < |before| {
          assert !Redundant(before[i], before, i);
          assert forall j :: 0 <= j < i ==> kept[j] == before[j];
        } else {
          assert forall j :: 0 <= j < |before| ==> kept[j] == before[j];
        }
      }
    }
  }

  lemma {:induction false} DistinctSurvives(kept: seq<Row>, n: nat)
    requires Distinct(kept) && n <= |kept|
    ensures KeptUpTo(kept, n) == kept[..n]
  {
    if n > 0 {
      DistinctSurvives(kept, n - 1);
      assert !Redundant(kept[n - 1], kept, n - 1);
      assert kept[..n] == kept[..n - 1] + [kept[n - 1]];
    }
  }

  /** Running the removal again on what was kept removes nothing. */
  lemma DedupIdempotent(rows: seq<Row>)
    ensures Kept(Kept(rows)) == Kept(rows)
  {
    KeptAreDistinct(rows, |rows|);
    DistinctSurvives(Kept(rows), |Kept(rows)|);
    assert Kept(rows)[..|Kept(rows)|] == Kept(rows);
  }

  /** What the two guarantees of `Distinct` say of any two kept rows. */
  lemma KeptPairwise(rows: seq<Row>, i: nat, j: nat)
    requires i < j < |Kept(rows)|
    ensures !SameContent(Kept(rows)[j], Kept(rows)[i])
    ensures |Kept(rows)[j].text.tokens| >= 5 && Kept(rows)[i].source == Kept(rows)[j].source ==>
              Jaccard(Kept(rows)[j].text.tokens, Kept(rows)[i].text.tokens) < 0.94
  {
    KeptAreDistinct(rows, |rows|);
    assert !Redundant(Kept(rows)[j], Kept(rows), j);
  }

  /** Two rows have the same content, or the later one has five tokens, the same source and shares 94
      per cent of all tokens of the two. */
  predicate Repeats(later: Row, earlier: Row) {
    || later.text.contentHash == earlier.text.contentHash
    || (&& later.source == earlier.source && |later.text.tokens| >= 5
        && 100 * |later.text.tokens * earlier.text.tokens| >= 94 * |later.text.tokens + earlier.text.tokens|)
  }

  lemma ProductSign(a: real, b: real)
    requires b > 0.0
    ensures a * b >= 0.0 <==> a >= 0.0
  {
  }

  lemma QuotientAtLeast(x: real, y: real, c: real)
    requires y > 0.0
    ensures x / y >= c <==> x >= c * y
  {
    var q := x / y;
    assert (q - c) * y == x - c * y;
    ProductSign(q - c, y);
  }

  lemma ShareOfTokens(shared: nat, all: nat)
    requires all > 0
    ensures shared as real / all as real >= 0.94 <==> 100 * shared >= 94 * all
  {
    QuotientAtLeast(shared as real, all as real, 0.94);
    assert (100 * shared) as real == 100.0 * shared as real && (94 * all) as real == 94.0 * all as real;
  }

  lemma RepeatsIff(later: Row, earlier: Row)
    ensures SameContent(later, earlier) || Near(later, earlier) <==> Repeats(later, earlier)
  {
    var a, b := later.text.tokens, earlier.text.tokens;
    if a != {} {
      assert a <= a + b && |a + b| == |a| + |b - a| by {
        assert a + b == a + (b - a);
      }
      ShareOfTokens(|a * b|, |a + b|);
      if b == {} {
        assert a * b == {};
      }
    }
  }

  lemma RedundantIff(r: Row, kept: seq<Row>)
    ensures Redundant(r, kept, |kept|) <==> exists q :: q in kept && Repeats(r, q)
  {
    forall j | 0 <= j < |kept|
      ensures SameContent(r, kept[j]) || Near(r, kept[j]) <==> Repeats(r, kept[j])
    {
      RepeatsIff(r, kept[j]);
    }
    if q :| q in kept && Repeats(r, q) {
      var j :| 0 <= j < |kept| && kept[j] == q;
      assert Repeats(r, kept[j]);
    }
    if j :| 0 <= j < |kept| && (SameContent(r, kept[j]) || Near(r, kept[j])) {
      assert kept[j] in kept && Repeats(r, kept[j]);
    }
  }

  /** In plain terms: a row is dropped exactly if it repeats an earlier row that is kept. */
  lemma {:induction false} KeptIff(rows: seq<Row>, n: nat)
    requires n < |rows|
    ensures KeptUpTo(rows, n + 1) ==
            if exists q :: q in KeptUpTo(rows, n) && Repeats(rows[n], q) then KeptUpTo(rows, n)
            else KeptUpTo(rows, n) + [rows[n]]
  {
    RedundantIff(rows[n], KeptUpTo(rows, n));
  }

  /** Kept and dropped rows partition the input. */
  function DroppedUpTo(rows: seq<Row>, n: nat): seq<Row>
    requires n <= |rows|
  {
    if n == 0 then []
    else
      DroppedUpTo(rows, n - 1)
      + (if Redundant(rows[n - 1], KeptUpTo(rows, n - 1), |KeptUpTo(rows, n - 1)|) then [rows[n - 1]] else [])
  }

  lemma SplitSnoc(a: seq<Row>, b: seq<Row>, whole: seq<Row>, r: Row)
    requires multiset(a) + multiset(b) == multiset(whole)
    ensures multiset(a + [r]) + multiset(b) == multiset(whole + [r])
    ensures multiset(a) + multiset(b + [r]) == multiset(whole + [r])
    ensures b + [] == b
  {
  }

  lemma {:induction false} KeptAndDroppedPartition(rows: seq<Row>, n: nat)
    requires n <= |rows|
    ensures multiset(KeptUpTo(rows, n)) + multiset(DroppedUpTo(rows, n)) == multiset(rows[..n])
  {
    if n > 0 {
      KeptAndDroppedPartition(rows, n - 1);
      assert rows[..n] == rows[..n - 1] + [rows[n - 1]];
      SplitSnoc(KeptUpTo(rows, n - 1), DroppedUpTo(rows, n - 1), rows[..n - 1], rows[n - 1]);
    }
  }

  // ---- the reports

  type IdMap = map<Row, string>

  /** The stable ids of the rows, which the pass writes but never changes. */
  ghost function Ids(rows: seq<Row>): IdMap
    reads rows
  {
    map r | r in rows :: r.StableId()
  }

  function IdOf(ids: IdMap, r: Row): string {
    if r in ids then ids[r] else ""
  }

  /** The first kept row with the same content, or |kept|. */
  function FirstSame(r: Row, kept: seq<Row>, j: nat): (k: nat)
    requires j <= |kept|
    ensures j <= k <= |kept|
    ensures k < |kept| ==> SameContent(r, kept[k])
    ensures forall i :: j <= i < k ==> !SameContent(r, kept[i])
    decreases |kept| - j
  {
    if j == |kept| || SameContent(r, kept[j]) then j else FirstSame(r, kept, j + 1)
  }

  function FirstNear(r: Row, kept: seq<Row>, j: nat): (k: nat)
    requires j <= |kept|
    ensures j <= k <= |kept|
    ensures k < |kept| ==> Near(r, kept[k])
    ensures forall i :: j <= i < k ==> !Near(r, kept[i])
    decreases |kept| - j
  {
    if j == |kept| || Near(r, kept[j]) then j else FirstNear(r, kept, j + 1)
  }

  /** A dropped row is reported against the row with its content, else against the first near
      one with their similarity. */
  function ReportOf(r: Row, kept: seq<Row>, ids: IdMap): (d: Option<Duplicate>)
    ensures d.Some? <==> Redundant(r, kept, |kept|)
  {
    var same, near := FirstSame(r, kept, 0), FirstNear(r, kept, 0);
    if same < |kept| then Some(Duplicate(IdOf(ids, r), IdOf(ids, kept[same]), true, 1.0))
    else if near < |kept| then
      Some(Duplicate(IdOf(ids, r), IdOf(ids, kept[near]), false, Jaccard(r.text.tokens, kept[near].text.tokens)))
    else None
  }

  function Listed(d: Option<Duplicate>): seq<Duplicate> {
    if d.Some? then [d.value] else []
  }

  function ReportsUpTo(rows: seq<Row>, n: nat, ids: IdMap): seq<Duplicate>
    requires n <= |rows|
  {
    if n == 0 then [] else ReportsUpTo(rows, n - 1, ids) + Listed(ReportOf(rows[n - 1], KeptUpTo(rows, n - 1), ids))
  }

  /** The report names the row `r` and a row of `kept`. */
  ghost predicate Names(d: Duplicate, r: Row, kept: seq<Row>, ids: IdMap) {
    d.duplicateId == IdOf(ids, r) && exists q :: q in kept && d.canonicalId == IdOf(ids, q)
  }

  lemma ReportNames(r: Row, kept: seq<Row>, ids: IdMap)
    requires Redundant(r, kept, |kept|)
    ensures Names(ReportOf(r, kept, ids).value, r, kept, ids)
  {
  }

  /** One report per row, in order, each naming its row. */
  ghost predicate AllNamed(ds: seq<Duplicate>, rs: seq<Row>, kept: seq<Row>, ids: IdMap) {
    |ds| == |rs| && forall i :: 0 <= i < |rs| ==> Names(ds[i], rs[i], kept, ids)
  }

  lemma AllNamedGrows(ds: seq<Duplicate>, rs: seq<Row>, kept: seq<Row>, kept': seq<Row>, ids: IdMap)
    requires AllNamed(ds, rs, kept, ids) && kept <= kept'
    ensures AllNamed(ds, rs, kept', ids)
  {
  }

  lemma AllNamedSnoc(ds: seq<Duplicate>, rs: seq<Row>, kept: seq<Row>, ids: IdMap, d: Duplicate, r: Row)
    requires AllNamed(ds, rs, kept, ids) && Names(d, r, kept, ids)
    ensures AllNamed(ds + [d], rs + [r], kept, ids)
  {
  }

  /** The reports name the dropped rows, in order, and rows that are kept. */
  lemma {:induction false} ReportsMatchDropped(rows: seq<Row>, n: nat, ids: IdMap)
    requires n <= |rows|
    ensures AllNamed(ReportsUpTo(rows, n, ids), DroppedUpTo(rows, n), KeptUpTo(rows, n), ids)
  {
    if n > 0 {
      ReportsMatchDropped(rows, n - 1, ids);
      var r, before := rows[n - 1], KeptUpTo(rows, n - 1);
      var ds, rs := ReportsUpTo(rows, n - 1, ids), DroppedUpTo(rows, n - 1);
      if Redundant(r, before, |before|) {
        ReportNames(r, before, ids);
        AllNamedSnoc(ds, rs, before, ids, ReportOf(r, before, ids).value, r);
      } else {
        AllNamedGrows(ds, rs, before, before + [r], ids);
        assert ds + [] == ds && rs + [] == rs;
      }
    }
  }

  /** What one report says: the canonical row stands earlier in the input and is kept; an exact
      report means equal content, a near one means that no kept row has the content. */
  lemma {:induction false} ReportNamesEarlierKept(rows: seq<Row>, n: nat, ids: IdMap)
    requires n < |rows| && Redundant(rows[n], KeptUpTo(rows, n), |KeptUpTo(rows, n)|)
    ensures
      var earlier, report := KeptUpTo(rows, n), ReportOf(rows[n], KeptUpTo(rows, n), ids).value;
      && report.duplicateId == IdOf(ids, rows[n])
      && (report.exact <==> exists q :: q in earlier && SameContent(rows[n], q))
      && exists q :: q in earlier && q in rows[..n] && report.canonicalId == IdOf(ids, q)
                     && (if report.exact then SameContent(rows[n], q) && report.similarity == 1.0
                         else Near(rows[n], q) && 0.94 <= report.similarity
                              && report.similarity == Jaccard(rows[n].text.tokens, q.text.tokens))
  {
    KeptAreDistinct(rows, n);
    var earlier := KeptUpTo(rows, n);
    var same, near := FirstSame(rows[n], earlier, 0), FirstNear(rows[n], earlier, 0);
    if same < |earlier| {
      assert earlier[same] in earlier;
    } else {
      assert earlier[near] in earlier;
    }
  }

  // ---- the pass

  type CacheEntry = (string, set<string>, string)

  ghost predicate Cached(kept: seq<Row>, exact: map<string, string>, cache: seq<CacheEntry>, ids: IdMap) {
    && |cache| == |kept|
    && (forall j :: 0 <= j < |kept| ==> cache[j] == (IdOf(ids, kept[j]), kept[j].text.tokens, kept[j].source))
    && (forall j :: 0 <= j < |kept| ==>
        kept[j].text.contentHash in exact && exact[kept[j].text.contentHash] == IdOf(ids, kept[j]))
    && (forall h :: h in exact ==> exists j :: 0 <= j < |kept| && kept[j].text.contentHash == h)
  }

  /** The two lookups of one row: the exact digest, then the cached rows in order of arrival. */
  method FindDuplicate(r: Row, rowId: string, exact: map<string, string>, cache: seq<CacheEntry>,
                       ghost kept: seq<Row>, ghost ids: IdMap) returns (d: Option<Duplicate>)
    requires IdOf(ids, r) == rowId && Cached(kept, exact, cache, ids)
    ensures d == ReportOf(r, kept, ids)
  {
    var digest := r.text.contentHash;
    if digest in exact {
      assert FirstSame(r, kept, 0) < |kept|;
      return Some(Duplicate(rowId, exact[digest], true, 1.0));
    }
    assert FirstSame(r, kept, 0) == |kept|;
    if |r.text.tokens| >= 5 {
      for j := 0 to |cache|
        invariant FirstNear(r, kept, 0) == FirstNear(r, kept, j)
      {
        var (candidateId, candidateTokens, candidateSource) := cache[j];
        if candidateSource == r.source {
          var similarity := Jaccard(r.text.tokens, candidateTokens);
          if similarity >= 0.94 {
            assert Near(r, kept[j]);
            return Some(Duplicate(rowId, candidateId, false, similarity));
          }
        }
      }
    }
    d := None;
  }

  lemma CacheSnoc(kept: seq<Row>, exact: map<string, string>, cache: seq<CacheEntry>, ids: IdMap, r: Row)
    requires Cached(kept, exact, cache, ids)
    requires forall j :: 0 <= j < |kept| ==> !SameContent(r, kept[j])
    ensures Cached(kept + [r], exact[r.text.contentHash := IdOf(ids, r)],
                   cache + [(IdOf(ids, r), r.text.tokens, r.source)], ids)
  {
    var kept', exact' := kept + [r], exact[r.text.contentHash := IdOf(ids, r)];
    assert kept'[|kept|] == r;
    forall h | h in exact'
      ensures exists j :: 0 <= j < |kept'| && kept'[j].text.contentHash == h
    {
      if h != r.text.contentHash {
        var j :| 0 <= j < |kept| && kept[j].text.contentHash == h;
        assert kept'[j] == kept[j];
      }
    }
  }

  ghost predicate PassInv(rows: seq<Row>, n: nat, kept: seq<Row>, duplicates: seq<Duplicate>,
                          exact: map<string, string>, cache: seq<CacheEntry>, ids: IdMap)
    requires n <= |rows|
  {
    && kept == KeptUpTo(rows, n)
    && duplicates == ReportsUpTo(rows, n, ids)
    && Cached(kept, exact, cache, ids)
  }

  lemma DropStep(rows: seq<Row>, n: nat, kept: seq<Row>, duplicates: seq<Duplicate>,
                 exact: map<string, string>, cache: seq<CacheEntry>, ids: IdMap)
    requires n < |rows| && PassInv(rows, n, kept, duplicates, exact, cache, ids)
    ensures var d := ReportOf(rows[n], kept, ids);
            d.Some? ==> PassInv(rows, n + 1, kept, duplicates + [d.value], exact, cache, ids)
  {
  }

  lemma KeepStep(rows: seq<Row>, n: nat, kept: seq<Row>, duplicates: seq<Duplicate>,
                 exact: map<string, string>, cache: seq<CacheEntry>, ids: IdMap)
    requires n < |rows| && PassInv(rows, n, kept, duplicates, exact, cache, ids)
    requires ReportOf(rows[n], kept, ids).None?
    ensures var r := rows[n];
            PassInv(rows, n + 1, kept + [r], duplicates, exact[r.text.contentHash := IdOf(ids, r)],
                    cache + [(IdOf(ids, r), r.text.tokens, r.source)], ids)
  {
    CacheSnoc(kept, exact, cache, ids, rows[n]);
    assert duplicates + Listed(None) == duplicates;
  }

  /** The first `n` rows carry their id and digest, and no stable id has changed. */
  ghost predicate Stamped(rows: seq<Row>, n: nat, ids: IdMap)
    reads rows
    requires n <= |rows|
  {
    && (forall r :: r in rows ==> r.StableId() == IdOf(ids, r))
    && (forall i :: 0 <= i < n ==>
        rows[i].id == Some(IdOf(ids, rows[i])) && rows[i].contentHash == Some(rows[i].text.contentHash))
  }

  method StampRow(rows: seq<Row>, n: nat, ghost ids: IdMap) returns (rowId: string)
    requires n < |rows| && Stamped(rows, n, ids)
    modifies rows
    ensures Stamped(rows, n + 1, ids)
    ensures rowId == IdOf(ids, rows[n])
  {
    var row := rows[n];
    assert row in rows;
    rowId := row.StableId();
    row.id := Some(rowId);
    row.contentHash := Some(row.text.contentHash);
  }

  /** One turn of the loop after the row's id is known. */
  method TakeRow(rows: seq<Row>, n: nat, rowId: string, kept: seq<Row>, duplicates: seq<Duplicate>,
                 exact: map<string, string>, tokenCache: seq<CacheEntry>, ghost ids: IdMap)
    returns (kept': seq<Row>, duplicates': seq<Duplicate>, exact': map<string, string>, tokenCache': seq<CacheEntry>)
    requires n < |rows| && IdOf(ids, rows[n]) == rowId
    requires PassInv(rows, n, kept, duplicates, exact, tokenCache, ids)
    ensures PassInv(rows, n + 1, kept', duplicates', exact', tokenCache', ids)
  {
    kept', duplicates', exact', tokenCache' := kept, duplicates, exact, tokenCache;
    var row := rows[n];
    var duplicate := FindDuplicate(row, rowId, exact, tokenCache, kept, ids);
    if duplicate.Some? {
      DropStep(rows, n, kept, duplicates, exact, tokenCache, ids);
      duplicates' := duplicates + [duplicate.value];
    } else {
      KeepStep(rows, n, kept, duplicates, exact, tokenCache, ids);
      exact' := exact[row.text.contentHash := rowId];
      tokenCache' := tokenCache + [(rowId, row.text.tokens, row.source)];
      kept' := kept + [row];
    }
  }

  /** The greedy pass: what it keeps, what it reports for the dropped rows, and the two fields
      it writes into every row. */
  method Deduplicate(rows: seq<Row>) returns (kept: seq<Row>, duplicates: seq<Duplicate>)
    modifies rows
    ensures kept == Kept(rows)
    ensures duplicates == ReportsUpTo(rows, |rows|, old(Ids(rows)))
    ensures Stamped(rows, |rows|, old(Ids(rows)))
  {
    ghost var ids := Ids(rows);
    kept, duplicates := [], [];
    var exact: map<string, string> := map[];
    var tokenCache: seq<CacheEntry> := [];
    for n := 0 to |rows|
      invariant Stamped(rows, n, ids)
      invariant PassInv(rows, n, kept, duplicates, exact, tokenCache, ids)
    {
      var rowId := StampRow(rows, n, ids);
      kept, duplicates, exact, tokenCache := TakeRow(rows, n, rowId, kept, duplicates, exact, tokenCache, ids);
    }
  }
}
