/**
 * What the two record routers (posts and job roles) have in common: the
 * caller, the HTTP errors they raise, the shape of a list response, and the
 * three steps of a list query -- `WHERE`, `OFFSET`/`LIMIT` and `COUNT` --
 * evaluated over an in-memory table. A table is a sequence of rows in the
 * order the database yields them (the queries have no `ORDER BY`).
 */
module Listing {

  /** Record and user identifiers. They stand for UUIDs and are only compared. */
  type Uuid = nat

  /** The authenticated caller: its id and whether it is a superuser. */
  datatype User = User(id: Uuid, isSuperuser: bool)

  /** An `HTTPException`: a status code and its detail message. */
  datatype HttpError = HttpError(status: nat, detail: string)

  /** A route's outcome: the response body, or the HTTP error it raises. */
  datatype Result<T> = Ok(value: T) | Err(error: HttpError)

  /** The `{data, count}` body of a list response. */
  datatype ListPage<T> = ListPage(data: seq<T>, count: nat)

  /** The list routes' query-parameter defaults: `skip: int = 0`, `limit: int = 100`. */
  const DefaultSkip: nat := 0
  const DefaultLimit: nat := 100

  function Min(a: nat, b: nat): nat
  {
    if a <= b then a else b
  }

  /** The primary-key invariant: no two rows share a key. */
  predicate DistinctKeys<T>(rows: seq<T>, key: T -> Uuid)
  {
    forall i, j :: 0 <= i < j < |rows| ==> key(rows[i]) != key(rows[j])
  }

  predicate NoDuplicates<T(==)>(s: seq<T>)
  {
    forall i, j :: 0 <= i < j < |s| ==> s[i] != s[j]
  }

  /** `WHERE keep(row)`: the rows that pass, in table order. */
  function Filter<T(!new)>(rows: seq<T>, keep: T -> bool): (r: seq<T>)
    ensures |r| <= |rows|
    ensures forall x :: x in r <==> x in rows && keep(x)
  {
    if rows == [] then []
    else
      var init := rows[..|rows| - 1];
      assert rows == init + [rows[|rows| - 1]];
      Filter(init, keep) + (if keep(rows[|rows| - 1]) then [rows[|rows| - 1]] else [])
  }

  /** `OFFSET skip LIMIT limit`: at most `limit` rows, starting with row number `skip`. */
  function OffsetLimit<T(!new)>(rows: seq<T>, skip: nat, limit: nat): (r: seq<T>)
    ensures |r| <= limit
    ensures |r| == if skip <= |rows| then Min(limit, |rows| - skip) else 0
    ensures forall i :: 0 <= i < |r| ==> r[i] == rows[skip + i]
    ensures forall x :: x in r ==> x in rows
  {
    if skip >= |rows| then [] else rows[skip..skip + Min(limit, |rows| - skip)]
  }

  /** Inserting one row at the end of the table adds it to the filter's output exactly when it passes. */
  lemma FilterAppend<T(!new)>(rows: seq<T>, x: T, keep: T -> bool)
    ensures Filter(rows + [x], keep) == Filter(rows, keep) + (if keep(x) then [x] else [])
  {
    assert (rows + [x])[..|rows|] == rows;
  }

  /** Filtering a table without duplicate rows yields no duplicate rows. */
  lemma {:induction false} FilterNoDuplicates<T(!new)>(rows: seq<T>, keep: T -> bool)
    requires NoDuplicates(rows)
    ensures NoDuplicates(Filter(rows, keep))
  {
    if rows != [] {
      var init, last := rows[..|rows| - 1], rows[|rows| - 1];
      assert rows == init + [last];
      assert NoDuplicates(init) by {
        forall i, j | 0 <= i < j < |init| ensures init[i] != init[j] {
          assert init[i] == rows[i] && init[j] == rows[j];
        }
      }
      FilterNoDuplicates(init, keep);
      assert last !in init by {
        forall k | 0 <= k < |init| ensures init[k] != last {
          assert init[k] == rows[k];
        }
      }
      var f := Filter(init, keep);
      assert Filter(rows, keep) == f + (if keep(last) then [last] else []);
      assert last !in f;
    }
  }

  /** A sequence without duplicates has as many distinct elements as it has positions. */
  lemma {:induction false} CardOfNoDuplicates<T>(s: seq<T>)
    requires NoDuplicates(s)
    ensures |set x | x in s| == |s|
  {
    if s == [] {
      assert (set x | x in s) == {};
    } else {
      var init, last := s[..|s| - 1], s[|s| - 1];
      assert s == init + [last];
      assert NoDuplicates(init) by {
        forall i, j | 0 <= i < j < |init| ensures init[i] != init[j] {
          assert init[i] == s[i] && init[j] == s[j];
        }
      }
      CardOfNoDuplicates(init);
      assert last !in init by {
        forall k | 0 <= k < |init| ensures init[k] != last {
          assert init[k] == s[k];
        }
      }
      assert (set x | x in s) == (set x | x in init) + {last};
    }
  }

  /**
   * `COUNT(*) ... WHERE keep(row)` over a table without duplicate rows is the
   * number of distinct rows that pass the filter, given here as the set `passing`.
   */
  lemma CountOfFilter<T(!new)>(rows: seq<T>, keep: T -> bool, passing: set<T>)
    requires NoDuplicates(rows)
    requires forall x :: x in passing <==> x in rows && keep(x)
    ensures |Filter(rows, keep)| == |passing|
  {
    FilterNoDuplicates(rows, keep);
    CardOfNoDuplicates(Filter(rows, keep));
    assert (set x | x in Filter(rows, keep)) == passing;
  }

  /**
   * Two consecutive windows, the second starting where the first one's limit
   * ends, together form the window with the summed limit.
   */
  lemma OffsetLimitSplit<T(!new)>(rows: seq<T>, skip: nat, a: nat, b: nat)
    ensures OffsetLimit(rows, skip, a) + OffsetLimit(rows, skip + a, b) == OffsetLimit(rows, skip, a + b)
  {
    var first, second, whole := OffsetLimit(rows, skip, a), OffsetLimit(rows, skip + a, b), OffsetLimit(rows, skip, a + b);
    assert |first| + |second| == |whole|;
    forall i | 0 <= i < |whole| ensures (first + second)[i] == whole[i] {
      if i >= |first| {
        assert |first| == a;
        assert second[i - a] == rows[skip + i];
      }
    }
  }
}
