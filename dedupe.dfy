/**
 * `dedupeMetas`: collapse records that share an id, keeping the first-seen order of the
 * ids and filling gaps from later duplicates without ever replacing a present field.
 * `DedupeMetas` is the loop over the `byId` map; `Build` and `Dedupe` specify it.
 */
module Dedupe {
  import opened Wrappers
  import opened Text
  import opened Records

  /** The record `dedupeMetas` stores when `next` repeats the id of the stored `prev`. */
  function Merge(prev: Meta, next: Meta): Meta {
    prev.(
      name := if |prev.name| >= |next.name| then prev.name else next.name,
      poster := OrText(prev.poster, next.poster),
      description := OrText(prev.description, next.description),
      releaseInfo := OrText(prev.releaseInfo, next.releaseInfo),
      genres := if prev.genres.Some? then prev.genres else next.genres,
      website := OrText(prev.website, next.website))
  }

  /** The `byId` map: its keys in insertion order and its entries. */
  datatype Index = Index(order: seq<string>, byId: map<string, Meta>)

  /** One iteration of the loop of `dedupeMetas`. */
  function Absorb(ix: Index, m: Option<Meta>): Index {
    match m
    case None => ix
    case Some(meta) =>
      if meta.id in ix.byId then Index(ix.order, ix.byId[meta.id := Merge(ix.byId[meta.id], meta)])
      else Index(ix.order + [meta.id], ix.byId[meta.id := meta])
  }

  /** The `byId` map after the loop has consumed `metas`. */
  function Build(metas: seq<Option<Meta>>): Index {
    if metas == [] then Index([], map[])
    else Absorb(Build(metas[..|metas| - 1]), metas[|metas| - 1])
  }

  /** The ids of the non-null entries, in input order. */
  function PresentIds(metas: seq<Option<Meta>>): seq<string> {
    if metas == [] then []
    else
      PresentIds(metas[..|metas| - 1]) + IdOf(metas[|metas| - 1])
  }

  function IdOf(m: Option<Meta>): seq<string> {
    match m
    case None => []
    case Some(meta) => [meta.id]
  }

  ghost predicate Distinct(xs: seq<string>) {
    forall i, j :: 0 <= i < j < |xs| ==> xs[i] != xs[j]
  }

  /** The insertion order lists each key of the map exactly once. */
  ghost predicate Consistent(ix: Index) {
    Distinct(ix.order) && forall k :: k in ix.byId <==> k in ix.order
  }

  lemma {:induction false} BuildConsistent(metas: seq<Option<Meta>>)
    ensures Consistent(Build(metas))
    ensures forall k :: k in Build(metas).byId <==> k in PresentIds(metas)
    decreases |metas|
  {
    if metas != [] {
      BuildConsistent(metas[..|metas| - 1]);
    }
  }

  /** `[...byId.values()]`. */
  function Values(ix: Index): (r: seq<Meta>)
    requires forall i :: 0 <= i < |ix.order| ==> ix.order[i] in ix.byId
    ensures |r| == |ix.order|
  {
    seq(|ix.order|, i requires 0 <= i < |ix.order| => ix.byId[ix.order[i]])
  }

  /** What `dedupeMetas(metas)` returns. */
  function Dedupe(metas: seq<Option<Meta>>): (r: seq<Meta>)
    ensures |r| == |Build(metas).order|
    ensures forall i :: 0 <= i < |r| ==>
              Build(metas).order[i] in Build(metas).byId && r[i] == Build(metas).byId[Build(metas).order[i]]
  {
    BuildConsistent(metas);
    Values(Build(metas))
  }

  /** `dedupeMetas(metas)`: the loop over the `byId` map. */
  method DedupeMetas(metas: seq<Option<Meta>>) returns (out: seq<Meta>)
    ensures out == Dedupe(metas)
    ensures forall i, j :: 0 <= i < j < |out| ==> out[i].id != out[j].id
    ensures forall i :: 0 <= i < |out| ==> out[i].id in PresentIds(metas)
  {
    var order: seq<string> := [];
    var byId: map<string, Meta> := map[];
    for i := 0 to |metas|
      invariant Build(metas[..i]) == Index(order, byId)
    {
      assert metas[..i + 1][..i] == metas[..i];
      match metas[i]
      case None =>
      case Some(meta) =>
        if meta.id !in byId {
          byId := byId[meta.id := meta];
          order := order + [meta.id];
        } else {
          var prev := byId[meta.id];
          byId := byId[meta.id := Merge(prev, meta)];
        }
    }
    assert metas[..|metas|] == metas;
    BuildConsistent(metas);
    DedupeIds(metas);
    out := seq(|order|, k requires 0 <= k < |order| => byId[order[k]]);
  }

  /** The output ids are pairwise distinct and are exactly the ids of the non-null inputs. */
  lemma DedupeIds(metas: seq<Option<Meta>>)
    ensures forall i, j :: 0 <= i < j < |Dedupe(metas)| ==> Dedupe(metas)[i].id != Dedupe(metas)[j].id
    ensures forall k :: k in PresentIds(metas) <==> exists i :: 0 <= i < |Dedupe(metas)| && Dedupe(metas)[i].id == k
  {
    BuildConsistent(metas);
    BuildKeysAreIds(metas);
    var out := Dedupe(metas);
    var ix := Build(metas);
    forall k | k in PresentIds(metas)
      ensures exists i :: 0 <= i < |out| && out[i].id == k
    {
      var i :| 0 <= i < |ix.order| && ix.order[i] == k;
      assert out[i].id == k;
    }
  }

  /** Every stored entry carries the id it is stored under. */
  lemma {:induction false} BuildKeysAreIds(metas: seq<Option<Meta>>)
    ensures forall k :: k in Build(metas).byId ==> Build(metas).byId[k].id == k
    decreases |metas|
  {
    if metas != [] {
      BuildKeysAreIds(metas[..|metas| - 1]);
    }
  }

  /** Index of the first occurrence of `k` in `xs`. */
  function FirstIndex(xs: seq<string>, k: string): (r: nat)
    requires k in xs
    ensures r < |xs| && xs[r] == k
    ensures forall l :: 0 <= l < r ==> xs[l] != k
  {
    if xs[0] == k then 0 else 1 + FirstIndex(xs[1..], k)
  }

  lemma FirstIndexAppend(xs: seq<string>, ys: seq<string>, k: string)
    requires k in xs
    ensures FirstIndex(xs + ys, k) == FirstIndex(xs, k)
  {
    var a := FirstIndex(xs + ys, k);
    var b := FirstIndex(xs, k);
    assert (xs + ys)[b] == k;
    assert forall l :: 0 <= l < |xs| ==> (xs + ys)[l] == xs[l];
  }

  /** Every key of `order` occurs in `ids`, and `order` lists them by first occurrence in `ids`. */
  ghost predicate OrderedByFirst(order: seq<string>, ids: seq<string>) {
    && (forall i :: 0 <= i < |order| ==> order[i] in ids)
    && (forall i, j :: 0 <= i < j < |order| ==> FirstIndex(ids, order[i]) < FirstIndex(ids, order[j]))
  }

  lemma OrderedExtend(order: seq<string>, ids: seq<string>, tail: seq<string>)
    requires OrderedByFirst(order, ids)
    ensures OrderedByFirst(order, ids + tail)
  {
    forall i | 0 <= i < |order|
      ensures FirstIndex(ids + tail, order[i]) == FirstIndex(ids, order[i])
    {
      FirstIndexAppend(ids, tail, order[i]);
    }
  }

  lemma OrderedAppendNew(order: seq<string>, ids: seq<string>, x: string)
    requires OrderedByFirst(order, ids) && x !in ids
    ensures OrderedByFirst(order + [x], ids + [x])
  {
    OrderedExtend(order, ids, [x]);
    var ids' := ids + [x];
    assert ids'[|ids|] == x;
    assert FirstIndex(ids', x) == |ids|;
    forall i | 0 <= i < |order|
      ensures FirstIndex(ids', order[i]) < |ids|
    {
      FirstIndexAppend(ids, [x], order[i]);
    }
  }

  lemma AbsorbOrdered(ix: Index, ids: seq<string>, m: Option<Meta>)
    requires OrderedByFirst(ix.order, ids)
    requires forall k :: k in ix.byId <==> k in ids
    ensures OrderedByFirst(Absorb(ix, m).order, ids + IdOf(m))
  {
    match m
    case None =>
      assert ids + IdOf(m) == ids;
    case Some(meta) =>
      if meta.id !in ix.byId {
        OrderedAppendNew(ix.order, ids, meta.id);
      } else {
        OrderedExtend(ix.order, ids, [meta.id]);
      }
  }

  /** The insertion order is the order of first occurrence in the input. */
  lemma {:induction false} BuildOrderFirstSeen(metas: seq<Option<Meta>>)
    ensures OrderedByFirst(Build(metas).order, PresentIds(metas))
    decreases |metas|
  {
    if metas != [] {
      var pre := metas[..|metas| - 1];
      BuildOrderFirstSeen(pre);
      BuildConsistent(pre);
      AbsorbOrdered(Build(pre), PresentIds(pre), metas[|metas| - 1]);
    }
  }

  /** The output of `dedupeMetas` is ordered by first occurrence of each id in the input. */
  lemma DedupeFirstSeenOrder(metas: seq<Option<Meta>>)
    ensures forall i :: 0 <= i < |Dedupe(metas)| ==> Dedupe(metas)[i].id in PresentIds(metas)
    ensures forall i, j :: 0 <= i < j < |Dedupe(metas)| ==>
              FirstIndex(PresentIds(metas), Dedupe(metas)[i].id) < FirstIndex(PresentIds(metas), Dedupe(metas)[j].id)
  {
    BuildOrderFirstSeen(metas);
    BuildKeysAreIds(metas);
    BuildConsistent(metas);
    var out := Dedupe(metas);
    var ix := Build(metas);
    assert forall i :: 0 <= i < |out| ==> out[i].id == ix.order[i];
  }

  /** The non-null entries whose id is `k`, in input order. */
  function Group(metas: seq<Option<Meta>>, k: string): seq<Meta> {
    if metas == [] then []
    else
      Group(metas[..|metas| - 1], k)
      + (match metas[|metas| - 1] case None => [] case Some(m) => if m.id == k then [m] else [])
  }

  /** Folding `Merge` over a group from its first entry on. */
  function MergeAll(g: seq<Meta>): Meta
    requires |g| > 0
  {
    if |g| == 1 then g[0] else Merge(MergeAll(g[..|g| - 1]), g[|g| - 1])
  }

  /** Each stored record is the merge of every non-null entry with its id. */
  lemma {:induction false} BuildIsGroupMerge(metas: seq<Option<Meta>>)
    ensures forall k :: k in Build(metas).byId ==>
              |Group(metas, k)| > 0 && Build(metas).byId[k] == MergeAll(Group(metas, k))
    ensures forall k :: k !in Build(metas).byId ==> Group(metas, k) == []
    decreases |metas|
  {
    if metas != [] {
      var pre := metas[..|metas| - 1];
      BuildIsGroupMerge(pre);
      var ix := Build(pre);
      match metas[|metas| - 1]
      case None =>
        forall k ensures Group(metas, k) == Group(pre, k) {
        }
      case Some(m) =>
        forall k | k in Build(metas).byId
          ensures |Group(metas, k)| > 0 && Build(metas).byId[k] == MergeAll(Group(metas, k))
        {
          if k == m.id {
            var g := Group(pre, k);
            assert Group(metas, k) == g + [m];
            if k in ix.byId {
              assert (g + [m])[..|g|] == g;
            }
          } else {
            assert Group(metas, k) == Group(pre, k);
          }
        }
    }
  }

  /** The optional text fields that merging fills but never replaces. */
  datatype TextField = Poster | Description | ReleaseInfo | Website

  function FieldOf(m: Meta, f: TextField): string {
    match f
    case Poster => m.poster
    case Description => m.description
    case ReleaseInfo => m.releaseInfo
    case Website => m.website
  }

  function Column(g: seq<Meta>, f: TextField): (r: seq<string>)
    ensures |r| == |g|
  {
    seq(|g|, i requires 0 <= i < |g| => FieldOf(g[i], f))
  }

  function Names(g: seq<Meta>): (r: seq<string>)
    ensures |r| == |g|
  {
    seq(|g|, i requires 0 <= i < |g| => g[i].name)
  }

  function GenreColumn(g: seq<Meta>): (r: seq<Option<seq<string>>>)
    ensures |r| == |g|
  {
    seq(|g|, i requires 0 <= i < |g| => g[i].genres)
  }

  /** `r` is the first non-empty entry of `xs`, or "" when all are empty. */
  ghost predicate IsFirstPresent(xs: seq<string>, r: string) {
    || (r == "" && forall i :: 0 <= i < |xs| ==> xs[i] == "")
    || (exists j :: 0 <= j < |xs| && xs[j] == r && r != "" && forall i :: 0 <= i < j ==> xs[i] == "")
  }

  /** `r` is the first present entry of `xs`, or absent when all are absent. */
  ghost predicate IsFirstSome<T>(xs: seq<Option<T>>, r: Option<T>) {
    || (r.None? && forall i :: 0 <= i < |xs| ==> xs[i].None?)
    || (exists j :: 0 <= j < |xs| && xs[j] == r && r.Some? && forall i :: 0 <= i < j ==> xs[i].None?)
  }

  /** `r` is a longest entry of `xs`, and the first one of that length. */
  ghost predicate IsFirstLongest(xs: seq<string>, r: string) {
    exists j :: 0 <= j < |xs| && xs[j] == r
      && (forall i :: 0 <= i < |xs| ==> |xs[i]| <= |r|)
      && (forall i :: 0 <= i < j ==> |xs[i]| < |r|)
  }

  lemma FieldOfMerge(prev: Meta, next: Meta, f: TextField)
    ensures FieldOf(Merge(prev, next), f) == OrText(FieldOf(prev, f), FieldOf(next, f))
  {
  }

  /** Appending an entry: the first present entry stays, or the new entry becomes it. */
  lemma FirstPresentSnoc(xs: seq<string>, r: string, x: string)
    requires IsFirstPresent(xs, r)
    ensures IsFirstPresent(xs + [x], OrText(r, x))
  {
    var ys := xs + [x];
    assert forall i :: 0 <= i < |xs| ==> ys[i] == xs[i];
    if r == "" {
      if x != "" {
        assert ys[|xs|] == x;
      }
    } else {
      var j :| 0 <= j < |xs| && xs[j] == r && forall i :: 0 <= i < j ==> xs[i] == "";
      assert ys[j] == r;
    }
  }

  lemma {:induction false} MergeAllText(g: seq<Meta>, f: TextField)
    requires |g| > 0
    ensures IsFirstPresent(Column(g, f), FieldOf(MergeAll(g), f))
    decreases |g|
  {
    if |g| == 1 {
      assert Column(g, f)[0] == FieldOf(MergeAll(g), f);
    } else {
      var pre := g[..|g| - 1];
      var last := g[|g| - 1];
      MergeAllText(pre, f);
      assert Column(g, f) == Column(pre, f) + [FieldOf(last, f)];
      FieldOfMerge(MergeAll(pre), last, f);
      FirstPresentSnoc(Column(pre, f), FieldOf(MergeAll(pre), f), FieldOf(last, f));
    }
  }

  lemma {:induction false} MergeAllGenres(g: seq<Meta>)
    requires |g| > 0
    ensures IsFirstSome(GenreColumn(g), MergeAll(g).genres)
    decreases |g|
  {
    if |g| == 1 {
      assert GenreColumn(g)[0] == MergeAll(g).genres;
    } else {
      var pre := g[..|g| - 1];
      var last := g[|g| - 1];
      MergeAllGenres(pre);
      var xs, ys := GenreColumn(g), GenreColumn(pre);
      assert forall i :: 0 <= i < |pre| ==> xs[i] == ys[i];
      var r := MergeAll(pre).genres;
      if r.None? {
        assert forall i :: 0 <= i < |pre| ==> ys[i].None?;
        if last.genres.Some? {
          assert xs[|g| - 1] == MergeAll(g).genres;
        }
      } else {
        var j :| 0 <= j < |ys| && ys[j] == r && forall i :: 0 <= i < j ==> ys[i].None?;
        assert xs[j] == MergeAll(g).genres;
      }
    }
  }

  /** Appending an entry: the first longest entry stays unless the new one is strictly longer. */
  lemma FirstLongestSnoc(xs: seq<string>, r: string, x: string)
    requires IsFirstLongest(xs, r)
    ensures IsFirstLongest(xs + [x], if |r| >= |x| then r else x)
  {
    var ys := xs + [x];
    assert forall i :: 0 <= i < |xs| ==> ys[i] == xs[i];
    assert ys[|xs|] == x;
    var j :| 0 <= j < |xs| && xs[j] == r
             && (forall i :: 0 <= i < |xs| ==> |xs[i]| <= |r|)
             && (forall i :: 0 <= i < j ==> |xs[i]| < |r|);
    if |r| >= |x| {
      assert ys[j] == r;
    }
  }

  lemma {:induction false} MergeAllName(g: seq<Meta>)
    requires |g| > 0
    ensures IsFirstLongest(Names(g), MergeAll(g).name)
    decreases |g|
  {
    if |g| == 1 {
      assert Names(g)[0] == MergeAll(g).name;
    } else {
      var pre := g[..|g| - 1];
      var last := g[|g| - 1];
      MergeAllName(pre);
      assert Names(g) == Names(pre) + [last.name];
      FirstLongestSnoc(Names(pre), MergeAll(pre).name, last.name);
    }
  }

  lemma {:induction false} MergeAllIdentity(g: seq<Meta>)
    requires |g| > 0
    ensures MergeAll(g).id == g[0].id && MergeAll(g).kind == g[0].kind
    decreases |g|
  {
    if |g| > 1 {
      MergeAllIdentity(g[..|g| - 1]);
    }
  }

  /**
   * The merge policy of `dedupeMetas`, for each output record and the group of inputs sharing its id:
   * id and type come from the first entry, the name is the first longest one, and every optional
   * field is the first present value of the group (so a present field is never lost).
   */
  lemma DedupeMergePolicy(metas: seq<Option<Meta>>, i: nat)
    requires i < |Dedupe(metas)|
    ensures var out := Dedupe(metas)[i];
            var g := Group(metas, out.id);
            && |g| > 0
            && out.id == g[0].id && out.kind == g[0].kind
            && IsFirstLongest(Names(g), out.name)
            && IsFirstSome(GenreColumn(g), out.genres)
            && (forall f :: IsFirstPresent(Column(g, f), FieldOf(out, f)))
  {
    BuildConsistent(metas);
    BuildKeysAreIds(metas);
    BuildIsGroupMerge(metas);
    var ix := Build(metas);
    var k := ix.order[i];
    assert Dedupe(metas)[i] == ix.byId[k];
    var g := Group(metas, k);
    MergeAllIdentity(g);
    MergeAllName(g);
    MergeAllGenres(g);
    forall f ensures IsFirstPresent(Column(g, f), FieldOf(MergeAll(g), f)) {
      MergeAllText(g, f);
    }
  }

  /** Merging two well-formed records gives a well-formed record. */
  lemma MergeWellFormed(prev: Meta, next: Meta)
    requires WellFormed(prev) && WellFormed(next)
    ensures WellFormed(Merge(prev, next))
  {
  }

  lemma {:induction false} BuildWellFormed(metas: seq<Option<Meta>>)
    requires forall k :: 0 <= k < |metas| && metas[k].Some? ==> WellFormed(metas[k].value)
    ensures forall id :: id in Build(metas).byId ==> WellFormed(Build(metas).byId[id])
    decreases |metas|
  {
    if metas != [] {
      var pre := metas[..|metas| - 1];
      BuildWellFormed(pre);
      var last := metas[|metas| - 1];
      if last.Some? && last.value.id in Build(pre).byId {
        MergeWellFormed(Build(pre).byId[last.value.id], last.value);
      }
    }
  }

  /** Deduplication keeps the well-formedness `toMeta` establishes. */
  lemma DedupeWellFormed(metas: seq<Option<Meta>>)
    requires forall k :: 0 <= k < |metas| && metas[k].Some? ==> WellFormed(metas[k].value)
    ensures forall i :: 0 <= i < |Dedupe(metas)| ==> WellFormed(Dedupe(metas)[i])
  {
    BuildWellFormed(metas);
  }
}
