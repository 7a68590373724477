/** Small facts about sequences that several components share. */
module Prelude {

  datatype Option<+T> = None | Some(value: T)

  /** Addresses have 64 bits. */
  const ADDRESS_LIMIT := 0x1_0000_0000_0000_0000

  type Byte = b: nat | b < 0x100

  /** A name in a class file; a char stands for a byte. */
  type Name = string

  ghost predicate Distinct<T>(s: seq<T>) {
    forall i, j :: 0 <= i < j < |s| ==> s[i] != s[j]
  }

  /** The rows of a table laid end to end. */
  function Flatten<T>(rows: seq<seq<T>>): (flat: seq<T>) {
    if rows == [] then [] else Flatten(rows[..|rows| - 1]) + rows[|rows| - 1]
  }

  lemma FlattenAppend<T>(rows: seq<seq<T>>, row: seq<T>)
    ensures Flatten(rows + [row]) == Flatten(rows) + row
  {
    assert (rows + [row])[..|rows|] == rows;
  }

  /** Row k begins in the flat table where the rows before it end. */
  lemma {:induction false} FlattenRow<T>(rows: seq<seq<T>>, k: nat)
    requires k < |rows|
    ensures |Flatten(rows[..k])| + |rows[k]| <= |Flatten(rows)|
    ensures Flatten(rows)[..|Flatten(rows[..k])|] == Flatten(rows[..k])
    ensures Flatten(rows)[|Flatten(rows[..k])|..|Flatten(rows[..k])| + |rows[k]|] == rows[k]
  {
    var n := |rows| - 1;
    if k == n {
    } else {
      var init := rows[..n];
      FlattenRow(init, k);
      assert init[..k] == rows[..k];
      var at := |Flatten(rows[..k])|;
      assert Flatten(rows)[at..at + |rows[k]|] == Flatten(init)[at..at + |rows[k]|];
    }
  }

  /** The total size of the elements of a list. */
  function Sum<T>(s: seq<T>, size: T -> nat): nat {
    if s == [] then 0 else Sum(s[..|s| - 1], size) + size(s[|s| - 1])
  }

  lemma {:induction false} SumAppend<T>(a: seq<T>, b: seq<T>, size: T -> nat)
    ensures Sum(a + b, size) == Sum(a, size) + Sum(b, size)
  {
    if b == [] {
      assert a + b == a;
    } else {
      SumAppend(a, b[..|b| - 1], size);
      assert (a + b)[..|a + b| - 1] == a + b[..|b| - 1];
    }
  }

  lemma {:induction false} SumPrefix<T>(s: seq<T>, k: nat, size: T -> nat)
    requires k <= |s|
    ensures Sum(s[..k], size) <= Sum(s, size)
  {
    assert s == s[..k] + s[k..];
    SumAppend(s[..k], s[k..], size);
  }

  /** Distinct elements drawn from `all` weigh no more than `all` does. */
  lemma {:induction false} SumOfSelection<T>(chosen: seq<T>, all: seq<T>, size: T -> nat)
    requires Distinct(chosen)
    requires forall x :: x in chosen ==> x in all
    ensures Sum(chosen, size) <= Sum(all, size)
  {
    if chosen == [] {
    } else {
      var n := |chosen| - 1;
      var last := chosen[n];
      assert last in chosen;
      var i :| 0 <= i < |all| && all[i] == last;
      var rest := all[..i] + all[i + 1..];
      forall x | x in chosen[..n] ensures x in rest {
        assert x in chosen;
        var j :| 0 <= j < |all| && all[j] == x;
        assert j != i;
        if j < i { assert all[..i][j] == x; } else { assert all[i + 1..][j - i - 1] == x; }
      }
      SumOfSelection(chosen[..n], rest, size);
      assert all == (all[..i] + [last]) + all[i + 1..];
      SumAppend(all[..i] + [last], all[i + 1..], size);
      SumAppend(all[..i], [last], size);
      SumAppend(all[..i], all[i + 1..], size);
      assert Sum([last], size) == size(last);
    }
  }

  /** The total size of the elements of a set. */
  ghost function SumOver<T(!new)>(xs: set<T>, size: T -> nat): nat {
    if xs == {} then 0 else var x :| x in xs; size(x) + SumOver(xs - {x}, size)
  }

  lemma {:induction false} SumOverTakes<T(!new)>(xs: set<T>, x: T, size: T -> nat)
    requires x in xs
    ensures SumOver(xs, size) == size(x) + SumOver(xs - {x}, size)
    decreases |xs|
  {
    var y :| y in xs && SumOver(xs, size) == size(y) + SumOver(xs - {y}, size);
    if y != x {
      SumOverTakes(xs - {y}, x, size);
      SumOverTakes(xs - {x}, y, size);
      assert xs - {y} - {x} == xs - {x} - {y};
    }
  }

  /** However a set is listed, the total is that of the list. */
  lemma {:induction false} SumOverListing<T(!new)>(xs: set<T>, s: seq<T>, size: T -> nat)
    requires Distinct(s) && forall x :: x in xs <==> x in s
    ensures SumOver(xs, size) == Sum(s, size)
  {
    if s == [] {
      assert xs == {};
    } else {
      var n := |s| - 1;
      assert s[n] in s;
      forall x ensures x in xs - {s[n]} <==> x in s[..n] {
        if x in s && x != s[n] { var i :| 0 <= i < |s| && s[i] == x; assert s[..n][i] == x; }
        if x in s[..n] { var i :| 0 <= i < n && s[..n][i] == x; assert s[i] == x; }
      }
      SumOverListing(xs - {s[n]}, s[..n], size);
      SumOverTakes(xs, s[n], size);
    }
  }
}
