/**
  The forward pass shared by the two section assigners: a cursor over n sections starts
  at the first one and, item by item, either stays or moves on to the next section; each
  item's piece is appended to the section under the cursor after that item.  Which
  items move the cursor is given as a table: row i says, for every cursor position c
  that has a next section, whether item i moves the cursor from c to c + 1.
*/
module Cursors {
  import opened Strings

  /** Every row has one entry per cursor position that has a next section. */
  predicate Rows(table: seq<seq<bool>>, n: nat)
  {
    n > 0 && forall i :: 0 <= i < |table| ==> |table[i]| == n - 1
  }

  lemma RowsTake(table: seq<seq<bool>>, n: nat, k: nat)
    requires Rows(table, n) && k <= |table|
    ensures Rows(table[..k], n)
  {
    assert forall i :: 0 <= i < k ==> table[..k][i] == table[i];
  }

  /** The cursor after the given rows. */
  function Walk(table: seq<seq<bool>>): nat
  {
    if table == [] then 0
    else
      var c := Walk(table[..|table| - 1]);
      var row := table[|table| - 1];
      if c < |row| && row[c] then c + 1 else c
  }

  /** The last item moves the cursor by at most one, and moves it exactly when its row
      says so at the cursor it finds. */
  lemma {:induction false} WalkLast(table: seq<seq<bool>>)
    requires table != []
    ensures var c := Walk(table[..|table| - 1]);
      && (Walk(table) == c || Walk(table) == c + 1)
      && (Walk(table) == c + 1 <==> c < |table[|table| - 1]| && table[|table| - 1][c])
  {
  }

  lemma WalkStep(table: seq<seq<bool>>, i: nat)
    requires i < |table|
    ensures var c := Walk(table[..i]);
      && (Walk(table[..i + 1]) == c || Walk(table[..i + 1]) == c + 1)
      && (Walk(table[..i + 1]) == c + 1 <==> c < |table[i]| && table[i][c])
  {
    var p := table[..i + 1];
    assert p[..|p| - 1] == table[..i] && p[|p| - 1] == table[i];
    WalkLast(p);
  }

  /** The cursor stays on a section: it never passes the last one. */
  lemma {:induction false} WalkBound(table: seq<seq<bool>>, n: nat)
    requires Rows(table, n)
    ensures Walk(table) < n
    decreases |table|
  {
    if table != [] {
      RowsTake(table, n, |table| - 1);
      WalkBound(table[..|table| - 1], n);
    }
  }

  lemma {:induction false} WalkRises(table: seq<seq<bool>>, i: nat)
    requires i <= |table|
    ensures Walk(table[..i]) <= Walk(table) <= Walk(table[..i]) + (|table| - i)
    decreases |table|
  {
    if i < |table| {
      TakeTake(table, i, |table| - 1);
      WalkRises(table[..|table| - 1], i);
      WalkLast(table);
    } else {
      assert table[..i] == table;
    }
  }

  /** Over any stretch of items the cursor never moves back and moves on by at most one
      section per item. */
  lemma WalkMonotone(table: seq<seq<bool>>, i: nat, j: nat)
    requires i <= j <= |table|
    ensures Walk(table[..i]) <= Walk(table[..j]) <= Walk(table[..i]) + (j - i)
  {
    TakeTake(table, i, j);
    WalkRises(table[..j], i);
  }

  /** The n sections' contents after the given items: every section starts empty and
      each item's piece, unless it is empty, is appended to the section under the
      cursor after it. */
  function Distribute<T>(table: seq<seq<bool>>, pieces: seq<seq<T>>, n: nat): (r: seq<seq<T>>)
    requires |pieces| == |table| && Rows(table, n)
    ensures |r| == n
  {
    if table == [] then seq(n, j => [])
    else
      RowsTake(table, n, |table| - 1);
      var prev := Distribute(table[..|table| - 1], pieces[..|pieces| - 1], n);
      WalkBound(table, n);
      var c := Walk(table);
      var piece := pieces[|pieces| - 1];
      if piece == [] then prev else prev[c := prev[c] + piece]
  }

  lemma {:induction false} DistributeLast<T>(table: seq<seq<bool>>, pieces: seq<seq<T>>, n: nat)
    requires |pieces| == |table| && Rows(table, n) && table != []
    ensures Rows(table[..|table| - 1], n) && Walk(table) < n
    ensures var prev := Distribute(table[..|table| - 1], pieces[..|pieces| - 1], n);
      Distribute(table, pieces, n) ==
        if pieces[|pieces| - 1] == [] then prev else prev[Walk(table) := prev[Walk(table)] + pieces[|pieces| - 1]]
  {
    RowsTake(table, n, |table| - 1);
    WalkBound(table, n);
  }

  /** One item of the pass. */
  lemma {:induction false} DistributeStep<T>(table: seq<seq<bool>>, pieces: seq<seq<T>>, n: nat, i: nat)
    requires |pieces| == |table| && Rows(table, n) && i < |table|
    ensures Rows(table[..i], n) && Rows(table[..i + 1], n) && Walk(table[..i + 1]) < n
    ensures var prev := Distribute(table[..i], pieces[..i], n);
      var c := Walk(table[..i + 1]);
      Distribute(table[..i + 1], pieces[..i + 1], n) == if pieces[i] == [] then prev else prev[c := prev[c] + pieces[i]]
  {
    var t := table[..i + 1];
    var p := pieces[..i + 1];
    assert t[..|t| - 1] == table[..i] && p[..|p| - 1] == pieces[..i] && p[|p| - 1] == pieces[i];
    RowsTake(table, n, i + 1);
    DistributeLast(t, p, n);
  }

  /** An independent account of one section's content: the pieces of the items after
      which the cursor stands at that section, in item order. */
  function RoutedTo<T>(table: seq<seq<bool>>, pieces: seq<seq<T>>, j: nat): seq<T>
    requires |pieces| == |table|
  {
    if table == [] then []
    else
      RoutedTo(table[..|table| - 1], pieces[..|pieces| - 1], j)
      + (if Walk(table) == j then pieces[|pieces| - 1] else [])
  }

  /** Each section holds exactly the pieces routed to it: every piece lands in one
      section, the one under the cursor after its item, and keeps its order. */
  lemma {:induction false} DistributeRouted<T>(table: seq<seq<bool>>, pieces: seq<seq<T>>, n: nat, j: nat)
    requires |pieces| == |table| && Rows(table, n) && j < n
    ensures Distribute(table, pieces, n)[j] == RoutedTo(table, pieces, j)
    decreases |table|
  {
    if table != [] {
      DistributeLast(table, pieces, n);
      DistributeRouted(table[..|table| - 1], pieces[..|pieces| - 1], n, j);
    }
  }

  /** The sections after the cursor are still empty. */
  lemma {:induction false} DistributeAhead<T>(table: seq<seq<bool>>, pieces: seq<seq<T>>, n: nat)
    requires |pieces| == |table| && Rows(table, n)
    ensures forall j :: Walk(table) < j < n ==> Distribute(table, pieces, n)[j] == []
    decreases |table|
  {
    if table != [] {
      DistributeLast(table, pieces, n);
      DistributeAhead(table[..|table| - 1], pieces[..|pieces| - 1], n);
      WalkLast(table);
    }
  }

  /** The same account when the sections carry keys and a key may name several
      sections: the pieces of the items after which the cursor stands at a section with
      that key, in item order. */
  function RoutedKey<K(==), T>(table: seq<seq<bool>>, pieces: seq<seq<T>>, keys: seq<K>, key: K): seq<T>
    requires |pieces| == |table|
  {
    if table == [] then []
    else
      RoutedKey(table[..|table| - 1], pieces[..|pieces| - 1], keys, key)
      + (var c := Walk(table); if c < |keys| && keys[c] == key then pieces[|pieces| - 1] else [])
  }

  lemma {:induction false} RoutedKeyStep<K, T>(table: seq<seq<bool>>, pieces: seq<seq<T>>, keys: seq<K>, key: K, i: nat)
    requires |pieces| == |table| && i < |table|
    ensures RoutedKey(table[..i + 1], pieces[..i + 1], keys, key) ==
      RoutedKey(table[..i], pieces[..i], keys, key)
      + (var c := Walk(table[..i + 1]); if c < |keys| && keys[c] == key then pieces[i] else [])
  {
    var t := table[..i + 1];
    var p := pieces[..i + 1];
    assert t[..|t| - 1] == table[..i] && p[..|p| - 1] == pieces[..i] && p[|p| - 1] == pieces[i];
  }

  predicate Distinct<K(==)>(keys: seq<K>)
  {
    forall a, b :: 0 <= a < b < |keys| ==> keys[a] != keys[b]
  }

  /** With distinct keys, a key's pieces are those of its one section. */
  lemma {:induction false} RoutedKeyDistinct<K, T>(table: seq<seq<bool>>, pieces: seq<seq<T>>, keys: seq<K>, j: nat)
    requires |pieces| == |table| && Rows(table, |keys|) && Distinct(keys) && j < |keys|
    ensures RoutedKey(table, pieces, keys, keys[j]) == RoutedTo(table, pieces, j)
    decreases |table|
  {
    if table != [] {
      RowsTake(table, |keys|, |table| - 1);
      RoutedKeyDistinct(table[..|table| - 1], pieces[..|pieces| - 1], keys, j);
      WalkBound(table, |keys|);
      var c := Walk(table);
      assert keys[c] == keys[j] <==> c == j by {
        if c < j {
          assert keys[c] != keys[j];
        } else if j < c {
          assert keys[j] != keys[c];
        }
      }
    }
  }

  lemma {:induction false} FlattenEmpties<T>(xs: seq<seq<T>>)
    requires forall j :: 0 <= j < |xs| ==> xs[j] == []
    ensures Flatten(xs) == []
    decreases |xs|
  {
    if xs != [] {
      FlattenEmpties(xs[1..]);
    }
  }

  /** Appending to element c of a list whose later elements are empty appends to the
      concatenation. */
  lemma FlattenGrowAt<T>(xs: seq<seq<T>>, c: nat, p: seq<T>)
    requires c < |xs| && forall j :: c < j < |xs| ==> xs[j] == []
    ensures Flatten(xs[c := xs[c] + p]) == Flatten(xs) + p
  {
    var ys := xs[c := xs[c] + p];
    assert xs == xs[..c] + [xs[c]] + xs[c + 1..];
    assert ys == xs[..c] + [xs[c] + p] + xs[c + 1..];
    FlattenEmpties(xs[c + 1..]);
    FlattenAppend(xs[..c] + [xs[c]], xs[c + 1..]);
    FlattenAppend(xs[..c] + [xs[c] + p], xs[c + 1..]);
    FlattenSnoc(xs[..c], xs[c]);
    FlattenSnoc(xs[..c], xs[c] + p);
  }

  /** Nothing is lost and order is kept: the sections, in section order, hold the pieces
      in item order. */
  lemma {:induction false} DistributeTiles<T>(table: seq<seq<bool>>, pieces: seq<seq<T>>, n: nat)
    requires |pieces| == |table| && Rows(table, n)
    ensures Flatten(Distribute(table, pieces, n)) == Flatten(pieces)
    decreases |table|
  {
    if table == [] {
      FlattenEmpties(Distribute(table, pieces, n));
    } else {
      var t := table[..|table| - 1];
      var p := pieces[..|pieces| - 1];
      DistributeLast(table, pieces, n);
      DistributeTiles(t, p, n);
      DistributeAhead(t, p, n);
      WalkLast(table);
      assert pieces == p + [pieces[|pieces| - 1]];
      FlattenSnoc(p, pieces[|pieces| - 1]);
      if pieces[|pieces| - 1] == [] {
        assert Flatten(pieces) == Flatten(p);
      } else {
        FlattenGrowAt(Distribute(t, p, n), Walk(table), pieces[|pieces| - 1]);
      }
    }
  }
}
