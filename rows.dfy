/** Resource rows and the queries the resume controller runs on them: the ownership
    check, the batch id check, the per-user listing and the expansion of references.
    A table is the sequence of its rows in insertion order; ids are SERIAL, so row `i`
    has id `i + 1`, and no row is ever removed. */
module Rows {
  import opened Common
  import opened ResumeSchema
  import opened Sorting

  datatype Row = Row(
    id: int, userId: int, isActive: bool, cols: Columns,
    createdAt: Timestamp, updatedAt: Timestamp)

  ghost predicate IdsAreIndices(t: seq<Row>)
  {
    forall i :: 0 <= i < |t| ==> t[i].id == i + 1
  }

  // ---------------------------------------------------------------- ownership

  /** `checkResourceOwnership`: some row has this id, belongs to `user` and is active. */
  predicate Owns(t: seq<Row>, id: int, user: int)
  {
    exists i :: 0 <= i < |t| && OwnedAt(t, i, id, user)
  }

  predicate OwnedAt(t: seq<Row>, i: int, id: int, user: int)
    requires 0 <= i < |t|
  {
    t[i].id == id && t[i].userId == user && t[i].isActive
  }

  /** With SERIAL ids, ownership reads one row: it holds iff the row with that id exists,
      is the caller's and is active. A missing row and another user's row both fail. */
  lemma OwnsByIndex(t: seq<Row>, id: int, user: int)
    requires IdsAreIndices(t)
    ensures Owns(t, id, user) <==> 1 <= id <= |t| && t[id - 1].userId == user && t[id - 1].isActive
  {
    if 1 <= id <= |t| && t[id - 1].userId == user && t[id - 1].isActive {
      assert OwnedAt(t, id - 1, id, user);
    }
  }

  /** Ownership singles out one user: no two users own the same row. */
  lemma OwnerUnique(t: seq<Row>, id: int, u: int, v: int)
    requires IdsAreIndices(t)
    requires Owns(t, id, u) && Owns(t, id, v)
    ensures u == v
  {
    OwnsByIndex(t, id, u);
    OwnsByIndex(t, id, v);
  }

  // ---------------------------------------------------------------- batch check

  predicate MatchesIds(r: Row, ids: seq<int>, user: int)
  {
    r.id in ids && r.userId == user && r.isActive
  }

  /** `SELECT id FROM t WHERE id IN (ids) AND user_id = user AND is_active = true`. */
  function MatchingRows(t: seq<Row>, ids: seq<int>, user: int): (r: seq<Row>)
    ensures |r| <= |t|
    ensures forall x :: x in r <==> x in t && MatchesIds(x, ids, user)
  {
    if t == [] then []
    else MatchingRows(t[..|t| - 1], ids, user) + (if MatchesIds(t[|t| - 1], ids, user) then [t[|t| - 1]] else [])
  }

  /** `validateResourceIds`: true for an empty list, otherwise true iff the query above
      returns as many rows as the list has ids. */
  function ValidateIds(t: seq<Row>, ids: seq<int>, user: int): bool
  {
    |ids| == 0 || |MatchingRows(t, ids, user)| == |ids|
  }

  predicate NoDuplicates(ids: seq<int>)
  {
    forall i, j :: 0 <= i < j < |ids| ==> ids[i] != ids[j]
  }

  /** The ids of the list that name one of the caller's active rows. */
  function OwnedIds(t: seq<Row>, ids: seq<int>, user: int): set<int>
  {
    set x | x in ids && 1 <= x <= |t| && t[x - 1].userId == user && t[x - 1].isActive
  }

  lemma {:induction false} MatchingCount(t: seq<Row>, ids: seq<int>, user: int)
    requires IdsAreIndices(t)
    ensures |MatchingRows(t, ids, user)| == |OwnedIds(t, ids, user)|
    decreases |t|
  {
    if t == [] {
      assert OwnedIds(t, ids, user) == {};
    } else {
      var p := t[..|t| - 1];
      OwnedIdsStep(t, ids, user);
      MatchingCount(p, ids, user);
    }
  }

  /** Appending a row adds its id to the owned ids exactly when the query matches it. */
  lemma OwnedIdsStep(t: seq<Row>, ids: seq<int>, user: int)
    requires IdsAreIndices(t) && t != []
    ensures IdsAreIndices(t[..|t| - 1])
    ensures var before := OwnedIds(t[..|t| - 1], ids, user);
      |t| !in before &&
      OwnedIds(t, ids, user) == before + (if MatchesIds(t[|t| - 1], ids, user) then {|t|} else {})
  {
    var p := t[..|t| - 1];
    var last := t[|t| - 1];
    forall i | 0 <= i < |p| ensures p[i].id == i + 1 {
      assert p[i] == t[i];
    }
    var before := OwnedIds(p, ids, user);
    var after := OwnedIds(t, ids, user);
    assert last.id == |t|;
    forall x ensures x in after <==> x in before || (x == |t| && MatchesIds(last, ids, user)) {
      if 1 <= x < |t| {
        assert p[x - 1] == t[x - 1];
      }
    }
  }

  lemma {:induction false} DistinctCard(ids: seq<int>)
    ensures |set x | x in ids| <= |ids|
    ensures |set x | x in ids| == |ids| <==> NoDuplicates(ids)
    decreases |ids|
  {
    if ids != [] {
      var rest := ids[1..];
      DistinctCard(rest);
      var s := set x | x in ids;
      var sr := set x | x in rest;
      assert s == sr + {ids[0]};
      if ids[0] in rest {
        assert s == sr;
        var k :| 0 <= k < |rest| && rest[k] == ids[0];
        assert ids[0] == ids[k + 1];
        assert !NoDuplicates(ids);
      } else {
        assert |s| == |sr| + 1;
        if NoDuplicates(ids) {
          assert NoDuplicates(rest) by {
            forall i, j | 0 <= i < j < |rest| ensures rest[i] != rest[j] {
              assert rest[i] == ids[i + 1] && rest[j] == ids[j + 1];
            }
          }
        } else {
          assert forall j :: 1 <= j < |ids| ==> ids[j] == rest[j - 1];
          var i, j :| 0 <= i < j < |ids| && ids[i] == ids[j];
          assert rest[i - 1] == rest[j - 1];
        }
      }
    }
  }

  /** The batch check accepts exactly the lists of distinct ids that all name the
      caller's active rows (vacuously the empty list); a repeated id is refused. */
  lemma ValidateIdsMeaning(t: seq<Row>, ids: seq<int>, user: int)
    requires IdsAreIndices(t)
    ensures ValidateIds(t, ids, user) <==>
      NoDuplicates(ids) && forall i :: 0 <= i < |ids| ==> Owns(t, ids[i], user)
  {
    MatchingCount(t, ids, user);
    DistinctCard(ids);
    var owned := OwnedIds(t, ids, user);
    var all := set x | x in ids;
    assert owned <= all;
    forall i | 0 <= i < |ids| ensures Owns(t, ids[i], user) <==> ids[i] in owned {
      OwnsByIndex(t, ids[i], user);
    }
    if |ids| > 0 && |owned| == |ids| {
      SubsetCard(owned, all);
      assert owned == all;
      forall i | 0 <= i < |ids| ensures ids[i] in owned {
        assert ids[i] in all;
      }
    }
    if NoDuplicates(ids) && forall i :: 0 <= i < |ids| ==> Owns(t, ids[i], user) {
      assert all <= owned by {
        forall x | x in all ensures x in owned {
          var i :| 0 <= i < |ids| && ids[i] == x;
        }
      }
      assert owned == all;
    }
  }

  lemma SubsetCard(a: set<int>, b: set<int>)
    requires a <= b
    ensures |a| <= |b|
    ensures |a| == |b| ==> a == b
  {
    var d := b - a;
    assert b == a + d;
    assert a * d == {};
    if |a| == |b| {
      assert d == {};
    }
  }

  /** A repeated id makes the batch check fail even when the caller owns the row. */
  lemma RepeatedIdRefused(t: seq<Row>, id: int, user: int)
    requires IdsAreIndices(t)
    ensures !ValidateIds(t, [id, id], user)
  {
    ValidateIdsMeaning(t, [id, id], user);
    assert [id, id][0] == [id, id][1];
  }

  // ---------------------------------------------------------------- listing and ordering

  /** `WHERE user_id = user AND is_active = true`, in table order. */
  function ActiveOf(t: seq<Row>, user: int): (r: seq<Row>)
    ensures |r| <= |t|
    ensures forall x :: x in r <==> x in t && x.userId == user && x.isActive
    ensures r == [] <==> forall i :: 0 <= i < |t| ==> !(t[i].userId == user && t[i].isActive)
  {
    if t == [] then []
    else (if t[0].userId == user && t[0].isActive then [t[0]] else []) + ActiveOf(t[1..], user)
  }

  /** `WHERE id = ANY(ids) AND is_active = true`: no owner filter, and a row whose id is
      listed twice comes back once. */
  function ActiveWithIds(t: seq<Row>, ids: seq<int>): (r: seq<Row>)
    ensures |r| <= |t|
    ensures forall x :: x in r <==> x in t && x.id in ids && x.isActive
  {
    if t == [] then []
    else (if t[0].id in ids && t[0].isActive then [t[0]] else []) + ActiveWithIds(t[1..], ids)
  }

  /** The ORDER BY clauses the controller uses. */
  datatype Order =
    | NameAsc                    // ORDER BY name ASC
    | CreatedDesc                // ORDER BY created_at DESC
    | StartDesc                  // ORDER BY start_date DESC
    | StartDescCreatedDesc       // ORDER BY start_date DESC, created_at DESC

  /** Lexicographic order on code points. */
  predicate StrLe(a: string, b: string)
  {
    a == [] || (b != [] && (a[0] < b[0] || (a[0] == b[0] && StrLe(a[1..], b[1..]))))
  }

  lemma {:induction false} StrLeTotal(a: string, b: string)
    ensures StrLe(a, b) || StrLe(b, a)
  {
    if a != [] && b != [] && a[0] == b[0] {
      StrLeTotal(a[1..], b[1..]);
    }
  }

  lemma {:induction false} StrLeTrans(a: string, b: string, c: string)
    requires StrLe(a, b) && StrLe(b, c)
    ensures StrLe(a, c)
  {
    if a != [] && b != [] && c != [] && a[0] == b[0] == c[0] {
      StrLeTrans(a[1..], b[1..], c[1..]);
    }
  }

  function NameOf(r: Row): string
  {
    if "name" in r.cols && r.cols["name"].Text? then r.cols["name"].s else ""
  }

  function StartOf(r: Row): int
  {
    if "start_date" in r.cols && r.cols["start_date"].Date? then r.cols["start_date"].t else 0
  }

  predicate RowLe(o: Order, a: Row, b: Row)
  {
    match o
    case NameAsc => StrLe(NameOf(a), NameOf(b))
    case CreatedDesc => a.createdAt >= b.createdAt
    case StartDesc => StartOf(a) >= StartOf(b)
    case StartDescCreatedDesc =>
      StartOf(a) > StartOf(b) || (StartOf(a) == StartOf(b) && a.createdAt >= b.createdAt)
  }

  function Comparator(o: Order): (Row, Row) -> bool
  {
    (a, b) => RowLe(o, a, b)
  }

  lemma ComparatorTotal(o: Order)
    ensures TotalPreorder(Comparator(o))
  {
    var le := Comparator(o);
    forall a, b ensures le(a, b) || le(b, a) {
      if o.NameAsc? { StrLeTotal(NameOf(a), NameOf(b)); }
    }
    forall a, b, c | le(a, b) && le(b, c) ensures le(a, c) {
      if o.NameAsc? { StrLeTrans(NameOf(a), NameOf(b), NameOf(c)); }
    }
  }

  /** A query result: the rows `sel` in the order `o`. */
  function OrderBy(o: Order, sel: seq<Row>): (r: seq<Row>)
    ensures multiset(r) == multiset(sel)
    ensures SortedBy(Comparator(o), r)
  {
    ComparatorTotal(o);
    SortSorted(Comparator(o), sel);
    Sort(Comparator(o), sel)
  }

  /** The order of a get-all listing per kind. */
  function ListOrder(k: Kind): Order
  {
    match k
    case Skill => NameAsc
    case WorkExperience => StartDescCreatedDesc
    case Project => StartDescCreatedDesc
    case Education => StartDescCreatedDesc
    case _ => CreatedDesc
  }

  /** The order of an expanded resume section per kind (no `created_at` tie-break). */
  function ExpandOrder(k: Kind): Order
  {
    match k
    case Skill => NameAsc
    case WorkExperience => StartDesc
    case Project => StartDesc
    case Education => StartDesc
    case _ => CreatedDesc
  }

  /** A get-all listing: exactly the caller's active rows, each once, in the order `o`. */
  function Listing(t: seq<Row>, user: int, o: Order): (r: seq<Row>)
    ensures forall x :: x in r <==> x in t && x.userId == user && x.isActive
    ensures SortedBy(Comparator(o), r)
    ensures multiset(r) == multiset(ActiveOf(t, user))
  {
    var r := OrderBy(o, ActiveOf(t, user));
    assert forall x :: x in r <==> x in multiset(r);
    assert forall x :: x in ActiveOf(t, user) <==> x in multiset(ActiveOf(t, user));
    r
  }

  /** One expanded reference list: the listed rows that are still active. */
  function Expand(t: seq<Row>, ids: seq<int>, k: Kind): (r: seq<Row>)
    ensures forall x :: x in r <==> x in t && x.id in ids && x.isActive
    ensures SortedBy(Comparator(ExpandOrder(k)), r)
    ensures ids == [] ==> r == []
  {
    if ids == [] then []
    else
      var r := OrderBy(ExpandOrder(k), ActiveWithIds(t, ids));
      assert forall x :: x in r <==> x in multiset(r);
      assert forall x :: x in ActiveWithIds(t, ids) <==> x in multiset(ActiveWithIds(t, ids));
      r
  }

  /** With SERIAL ids, `ActiveWithIds` returns each listed active row once. */
  lemma {:induction false} ActiveWithIdsDistinct(t: seq<Row>, ids: seq<int>)
    requires forall i, j :: 0 <= i < j < |t| ==> t[i].id != t[j].id
    ensures forall i, j :: 0 <= i < j < |ActiveWithIds(t, ids)| ==>
      ActiveWithIds(t, ids)[i].id != ActiveWithIds(t, ids)[j].id
    decreases |t|
  {
    if t != [] {
      var rest := t[1..];
      assert forall i, j :: 0 <= i < j < |rest| ==> rest[i].id != rest[j].id by {
        forall i, j | 0 <= i < j < |rest| ensures rest[i].id != rest[j].id {
          assert rest[i] == t[i + 1] && rest[j] == t[j + 1];
        }
      }
      ActiveWithIdsDistinct(rest, ids);
      var tail := ActiveWithIds(rest, ids);
      forall x | x in tail ensures x.id != t[0].id {
        var k :| 0 <= k < |rest| && rest[k] == x;
        assert x == t[k + 1];
      }
    }
  }
}
