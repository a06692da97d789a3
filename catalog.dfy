/** The catalog store of the product management component: an ordered list of
    product records with insert (fresh id, appended last), replace by id, and
    the search filter over record names. */
module Catalog {
  import opened Strings
  import opened Numbers

  /** The fields of a record other than its id, as the form produces them. */
  datatype Draft = Draft(name: string, price: JsNumber, category: string, stock: JsNumber, description: string)

  /** A stored product record. */
  datatype Product = Product(id: int, data: Draft)

  ghost predicate UniqueIds(ps: seq<Product>) {
    forall i, j :: 0 <= i < j < |ps| ==> ps[i].id != ps[j].id
  }

  /** `Math.max(...products.map(p => p.id), 0)`: the largest id, or 0 when
      there is none or every id is below 0. */
  function MaxId(ps: seq<Product>): (m: int)
    ensures m >= 0
    ensures forall p :: p in ps ==> p.id <= m
    ensures m == 0 || exists p :: p in ps && p.id == m
  {
    if ps == [] then 0
    else
      var rest := MaxId(ps[1..]);
      if ps[0].id > rest then ps[0].id else rest
  }

  /** The id an inserted record receives: positive, and above every id in use. */
  function NextId(ps: seq<Product>): (n: int)
    ensures n >= 1
    ensures forall p :: p in ps ==> p.id < n
  {
    MaxId(ps) + 1
  }

  /** The id of the next record is 1 on an empty catalog and otherwise one more
      than the largest positive id; it differs from every id in the catalog. */
  lemma NextIdIsFresh(ps: seq<Product>)
    ensures ps == [] ==> NextId(ps) == 1
    ensures forall p :: p in ps ==> p.id < NextId(ps)
    ensures NextId(ps) == 1 || exists p :: p in ps && p.id == NextId(ps) - 1
  {
  }

  /** `[...products, newProduct]` with `newProduct` stamped with `NextId`. */
  function WithInserted(ps: seq<Product>, d: Draft): (r: seq<Product>)
    ensures |r| == |ps| + 1 && r[..|ps|] == ps
    ensures r[|ps|].data == d && forall p :: p in ps ==> p.id != r[|ps|].id
  {
    ps + [Product(NextId(ps), d)]
  }

  /** Insert appends exactly one record, with the draft's fields and the next
      id; the earlier records are untouched and the ids stay unique. */
  lemma {:induction false} InsertAppendsFreshRecord(ps: seq<Product>, d: Draft)
    ensures |WithInserted(ps, d)| == |ps| + 1
    ensures WithInserted(ps, d)[..|ps|] == ps
    ensures WithInserted(ps, d)[|ps|] == Product(NextId(ps), d)
    ensures forall p :: p in ps ==> p.id != WithInserted(ps, d)[|ps|].id
    ensures UniqueIds(ps) ==> UniqueIds(WithInserted(ps, d))
  {
    var r := WithInserted(ps, d);
    assert r[..|ps|] == ps;
    NextIdIsFresh(ps);
    forall i | 0 <= i < |ps| ensures r[i].id != r[|ps|].id {
      assert r[i] == ps[i];
      assert ps[i] in ps;
    }
  }

  /** `products.map(p => p.id === id ? { ...data, id: p.id } : p)`. */
  function WithReplaced(ps: seq<Product>, id: int, d: Draft): (r: seq<Product>)
    ensures |r| == |ps|
    ensures forall i :: 0 <= i < |ps| ==> r[i].id == ps[i].id
  {
    seq(|ps|, i requires 0 <= i < |ps| => if ps[i].id == id then Product(ps[i].id, d) else ps[i])
  }

  /** Replace keeps the length and every id in its position, rewrites the
      records whose id matches with the draft's fields and leaves the others alone. */
  lemma ReplaceKeepsShape(ps: seq<Product>, id: int, d: Draft)
    ensures forall i :: 0 <= i < |ps| ==> WithReplaced(ps, id, d)[i].id == ps[i].id
    ensures forall i :: 0 <= i < |ps| && ps[i].id != id ==> WithReplaced(ps, id, d)[i] == ps[i]
    ensures forall i :: 0 <= i < |ps| && ps[i].id == id ==> WithReplaced(ps, id, d)[i].data == d
    ensures UniqueIds(ps) ==> UniqueIds(WithReplaced(ps, id, d))
  {
  }

  /** With no record carrying the id, replace leaves the catalog as it was. */
  lemma {:induction false} ReplaceMissingIsNoOp(ps: seq<Product>, id: int, d: Draft)
    requires forall p :: p in ps ==> p.id != id
    ensures WithReplaced(ps, id, d) == ps
  {
    var r := WithReplaced(ps, id, d);
    forall i | 0 <= i < |ps| ensures r[i] == ps[i] {
      assert ps[i] in ps;
    }
  }

  /** With unique ids, replacing the id of the record at position `k` changes
      that one position and nothing else. */
  lemma {:induction false} ReplaceOnlyMatch(ps: seq<Product>, k: int, d: Draft)
    requires UniqueIds(ps) && 0 <= k < |ps|
    ensures WithReplaced(ps, ps[k].id, d) == ps[k := Product(ps[k].id, d)]
  {
    var r := WithReplaced(ps, ps[k].id, d);
    forall i | 0 <= i < |ps| ensures r[i] == ps[k := Product(ps[k].id, d)][i] {
      if i != k {
        assert ps[i].id != ps[k].id by {
          if i < k { assert ps[i].id != ps[k].id; } else { assert ps[k].id != ps[i].id; }
        }
      }
    }
  }

  /** The search condition on one record: its lower-cased name includes the
      lower-cased query. */
  predicate NameMatches(p: Product, query: string) {
    Includes(Lower(p.data.name), Lower(query))
  }

  /** The case of the query does not matter: a lowered query matches the same
      names as the query itself. */
  lemma QueryCaseIrrelevant(p: Product, query: string)
    ensures NameMatches(p, Lower(query)) == NameMatches(p, query)
  {
    LowerIdempotent(query);
  }

  /** `products.filter(p => p.name.toLowerCase().includes(query.toLowerCase()))`. */
  function Filter(ps: seq<Product>, query: string): (r: seq<Product>)
    ensures |r| <= |ps|
    ensures forall p :: p in r ==> p in ps && NameMatches(p, query)
  {
    if ps == [] then []
    else (if NameMatches(ps[0], query) then [ps[0]] else []) + Filter(ps[1..], query)
  }

  /** A record is in the filtered list exactly when it is in the catalog and
      its name matches. */
  lemma {:induction false} FilterMembership(ps: seq<Product>, query: string, p: Product)
    ensures p in Filter(ps, query) <==> p in ps && NameMatches(p, query)
  {
    if ps != [] {
      FilterMembership(ps[1..], query, p);
      assert ps == [ps[0]] + ps[1..];
    }
  }

  /** Filtering a concatenation filters each part. */
  lemma {:induction false} FilterAppend(a: seq<Product>, b: seq<Product>, query: string)
    ensures Filter(a + b, query) == Filter(a, query) + Filter(b, query)
  {
    if a != [] {
      assert (a + b)[1..] == a[1..] + b;
      FilterAppend(a[1..], b, query);
    } else {
      assert a + b == b;
    }
  }

  /** After an insert the filtered list is the old one, followed by the new
      record when its name matches the query. */
  lemma FilterAfterInsert(ps: seq<Product>, d: Draft, query: string)
    ensures Filter(WithInserted(ps, d), query) ==
      Filter(ps, query) + (if NameMatches(Product(NextId(ps), d), query) then [Product(NextId(ps), d)] else [])
  {
    var x := Product(NextId(ps), d);
    FilterAppend(ps, [x], query);
    assert [x][1..] == [];
  }

  /** `idx` lists increasing positions of `ps` whose records, in order, are `r`. */
  ghost predicate Embeds(idx: seq<int>, r: seq<Product>, ps: seq<Product>) {
    && |idx| == |r|
    && (forall k :: 0 <= k < |idx| ==> 0 <= idx[k] < |ps| && r[k] == ps[idx[k]])
    && (forall k, l :: 0 <= k < l < |idx| ==> idx[k] < idx[l])
  }

  /** Every position moved one place to the right. */
  function Shift(idx: seq<int>): (r: seq<int>)
    ensures |r| == |idx|
    ensures forall k :: 0 <= k < |idx| ==> r[k] == idx[k] + 1
  {
    seq(|idx|, k requires 0 <= k < |idx| => idx[k] + 1)
  }

  lemma ShiftMembership(idx: seq<int>, i: int)
    ensures i in Shift(idx) <==> i - 1 in idx
  {
    if i - 1 in idx {
      var k :| 0 <= k < |idx| && idx[k] == i - 1;
      assert Shift(idx)[k] == i;
    }
  }

  /** Positions of the tail of `ps`, read as positions of `ps`. */
  lemma {:induction false} EmbedsTail(idx: seq<int>, r: seq<Product>, ps: seq<Product>, keepHead: bool)
    requires ps != [] && Embeds(idx, r, ps[1..])
    ensures keepHead ==> Embeds([0] + Shift(idx), [ps[0]] + r, ps)
    ensures !keepHead ==> Embeds(Shift(idx), r, ps)
  {
    var sh := Shift(idx);
    assert forall k :: 0 <= k < |idx| ==> ps[sh[k]] == ps[1..][idx[k]];
    if keepHead {
      var full := [0] + sh;
      forall k | 0 < k < |full| ensures 0 <= full[k] < |ps| && ([ps[0]] + r)[k] == ps[full[k]] {
        assert full[k] == sh[k - 1];
      }
    }
  }

  /** Position `i` of `ps` is taken by the shifted tail positions, led by 0
      when the head is kept, exactly as position `i - 1` of the tail is taken. */
  lemma PositionTaken(ps: seq<Product>, rest: seq<int>, keepHead: bool, i: int)
    requires 0 <= i < |ps| && forall k :: 0 <= k < |rest| ==> 0 <= rest[k]
    ensures i in (if keepHead then [0] + Shift(rest) else Shift(rest)) <==>
      (if i == 0 then keepHead else i - 1 in rest)
  {
    ShiftMembership(rest, i);
    if i == 0 {
      assert 0 !in Shift(rest);
    }
  }

  /** The filtered list keeps records in their catalog order and keeps exactly
      those at the positions whose name matches: the positions it takes are
      increasing, and a position is taken iff its record matches. */
  lemma {:induction false} FilterKeepsOrder(ps: seq<Product>, query: string) returns (idx: seq<int>)
    ensures Embeds(idx, Filter(ps, query), ps)
    ensures forall i :: 0 <= i < |ps| ==> (i in idx <==> NameMatches(ps[i], query))
  {
    if ps == [] {
      idx := [];
    } else {
      var rest := FilterKeepsOrder(ps[1..], query);
      var keep := NameMatches(ps[0], query);
      EmbedsTail(rest, Filter(ps[1..], query), ps, keep);
      idx := if keep then [0] + Shift(rest) else Shift(rest);
      forall i | 0 <= i < |ps| ensures i in idx <==> NameMatches(ps[i], query) {
        PositionTaken(ps, rest, keep, i);
      }
    }
  }

  /** The empty query keeps the whole catalog, in order. */
  lemma {:induction false} FilterEmptyQuery(ps: seq<Product>)
    ensures Filter(ps, "") == ps
  {
    if ps != [] {
      IncludesEmpty(Lower(ps[0].data.name));
      assert Lower("") == "";
      FilterEmptyQuery(ps[1..]);
    }
  }

  /** Filtering is idempotent: the filtered list only holds matching records. */
  lemma {:induction false} FilterIdempotent(ps: seq<Product>, query: string)
    ensures Filter(Filter(ps, query), query) == Filter(ps, query)
  {
    if ps != [] {
      var tail := Filter(ps[1..], query);
      FilterIdempotent(ps[1..], query);
      if NameMatches(ps[0], query) {
        var f := [ps[0]] + tail;
        assert Filter(ps, query) == f;
        assert f != [] && f[0] == ps[0] && f[1..] == tail;
        assert Filter(f, query) == [ps[0]] + Filter(f[1..], query);
      } else {
        assert Filter(ps, query) == tail;
      }
    }
  }
}
