/** Shapes shared by the services: optional values and reads of a table held as a sequence of rows. */
module Common {

  datatype Option<+T> = None | Some(value: T)

  /** The position of the first row that satisfies `p`: a SELECT with LIMIT 1 read in row order. */
  function First<T>(rows: seq<T>, p: T -> bool): (r: Option<nat>)
    ensures r.Some? ==> r.value < |rows| && p(rows[r.value]) && forall j :: 0 <= j < r.value ==> !p(rows[j])
    ensures r.None? ==> forall j :: 0 <= j < |rows| ==> !p(rows[j])
  {
    if rows == [] then None
    else if p(rows[0]) then Some(0)
    else
      match First(rows[1..], p)
      case None => assert forall j :: 1 <= j < |rows| ==> rows[j] == rows[1..][j - 1]; None
      case Some(i) => assert forall j :: 1 <= j < |rows| ==> rows[j] == rows[1..][j - 1]; Some(i + 1)
  }

  /** The position of the last row that satisfies `p`: the first one of a SELECT that lists the newest rows first. */
  function Last<T>(rows: seq<T>, p: T -> bool): (r: Option<nat>)
    ensures r.Some? ==> r.value < |rows| && p(rows[r.value]) && forall j :: r.value < j < |rows| ==> !p(rows[j])
    ensures r.None? ==> forall j :: 0 <= j < |rows| ==> !p(rows[j])
  {
    if rows == [] then None
    else if p(rows[|rows| - 1]) then Some(|rows| - 1)
    else Last(rows[..|rows| - 1], p)
  }

  /** The rows that satisfy `p`, in row order. Rows are appended at the end, so the recursion peels there. */
  function Filter<T>(rows: seq<T>, p: T -> bool): (r: seq<T>)
    ensures |r| <= |rows|
    ensures forall x :: x in r ==> x in rows && p(x)
  {
    if rows == [] then []
    else
      var kept := Filter(rows[..|rows| - 1], p);
      if p(rows[|rows| - 1]) then kept + [rows[|rows| - 1]] else kept
  }

  lemma FilterSnoc<T>(rows: seq<T>, row: T, p: T -> bool)
    ensures Filter(rows + [row], p) == Filter(rows, p) + (if p(row) then [row] else [])
  {
    assert (rows + [row])[..|rows|] == rows;
  }

  /** The last element of a concatenation comes from its second part. */
  lemma ConcatLast<T>(a: seq<T>, b: seq<T>)
    requires b != []
    ensures a + b == (a + b[..|b| - 1]) + [b[|b| - 1]]
    ensures (a + b)[..|a + b| - 1] == a + b[..|b| - 1]
  {
  }

  lemma ConcatAssoc<T>(a: seq<T>, b: seq<T>, c: seq<T>)
    ensures (a + b) + c == a + (b + c)
  {
  }

  lemma {:induction false} FilterConcat<T>(a: seq<T>, b: seq<T>, p: T -> bool)
    ensures Filter(a + b, p) == Filter(a, p) + Filter(b, p)
  {
    if b == [] {
      assert a + b == a;
    } else {
      FilterConcat(a, b[..|b| - 1], p);
      ConcatLast(a, b);
      FilterSnoc(a + b[..|b| - 1], b[|b| - 1], p);
      ConcatAssoc(Filter(a, p), Filter(b[..|b| - 1], p), if p(b[|b| - 1]) then [b[|b| - 1]] else []);
    }
  }

  /** The reading of a method's loop that found nothing in `rows`. */
  lemma FirstNone<T>(rows: seq<T>, p: T -> bool)
    requires forall j :: 0 <= j < |rows| ==> !p(rows[j])
    ensures First(rows, p) == None
  {
  }

  /** The reading of a method's loop that stopped at row `i`. */
  lemma FirstSome<T>(rows: seq<T>, p: T -> bool, i: nat)
    requires i < |rows| && p(rows[i]) && forall j :: 0 <= j < i ==> !p(rows[j])
    ensures First(rows, p) == Some(i)
  {
  }

  function Bit(b: bool): int {
    if b then 1 else 0
  }

  lemma {:induction false} FilterHas<T>(rows: seq<T>, x: T, p: T -> bool)
    requires x in rows && p(x)
    ensures x in Filter(rows, p)
  {
    var init := rows[..|rows| - 1];
    if x in init {
      FilterHas(init, x, p);
    } else {
      assert rows == init + [rows[|rows| - 1]];
    }
  }

  /** Replacing one row changes the number of rows with a property by what that row contributes. */
  lemma {:induction false} FilterUpdate<T>(rows: seq<T>, i: nat, row: T, p: T -> bool)
    requires i < |rows|
    ensures |Filter(rows[i := row], p)| == |Filter(rows, p)| - Bit(p(rows[i])) + Bit(p(row))
  {
    var init := rows[..|rows| - 1];
    if i == |rows| - 1 {
      assert rows[i := row][..|rows| - 1] == init;
    } else {
      FilterUpdate(init, i, row, p);
      assert rows[i := row][..|rows| - 1] == init[i := row];
    }
  }

  /** How many rows have a property depends on nothing else about them. */
  lemma {:induction false} FilterSameCount<T>(a: seq<T>, b: seq<T>, p: T -> bool)
    requires |a| == |b| && forall i :: 0 <= i < |a| ==> p(a[i]) == p(b[i])
    ensures |Filter(a, p)| == |Filter(b, p)|
  {
    if a != [] {
      FilterSameCount(a[..|a| - 1], b[..|b| - 1], p);
    }
  }

  lemma {:induction false} FilterNonEmpty<T>(rows: seq<T>, p: T -> bool)
    ensures |Filter(rows, p)| >= 1 <==> First(rows, p).Some?
  {
    if rows != [] {
      FilterNonEmpty(rows[..|rows| - 1], p);
      match First(rows[..|rows| - 1], p)
      case Some(i) => FirstSome(rows, p, i);
      case None =>
        if p(rows[|rows| - 1]) {
          FirstSome(rows, p, |rows| - 1);
        } else {
          FirstNone(rows, p);
        }
    }
  }
}
