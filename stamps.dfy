/** VS-mode stamps: each player's `stampedSquares` list, the exclusive toggle
    of the `stamp` handler and the filters that remove stamps (server.js
    365-397, 511-520, 674-677). */
module Stamps {

  import opened Wrappers
  import opened Js
  import Cards

  /** `{ row, col, color }` with `row`/`col` as `parseInt` produced them. */
  datatype Stamp = Stamp(row: Num, col: Num, color: string)

  /** `s.row === r && s.col === c`: NaN coordinates never match. */
  predicate SameCell(s: Stamp, r: Num, c: Num) {
    StrictEq(s.row, r) && StrictEq(s.col, c)
  }

  predicate Holds(ss: seq<Stamp>, r: Num, c: Num) {
    exists k :: 0 <= k < |ss| && SameCell(ss[k], r, c)
  }

  /** `findIndex(s => s.row === r && s.col === c)`. */
  function FindStamp(ss: seq<Stamp>, r: Num, c: Num): (k: int)
    ensures -1 <= k < |ss|
    ensures k == -1 <==> !Holds(ss, r, c)
    ensures k >= 0 ==> SameCell(ss[k], r, c) && forall j :: 0 <= j < k ==> !SameCell(ss[j], r, c)
  {
    if ss == [] then -1
    else if SameCell(ss[0], r, c) then 0
    else
      var k := FindStamp(ss[1..], r, c);
      assert forall j :: 1 <= j < |ss| ==> ss[1..][j - 1] == ss[j];
      if k == -1 then -1 else k + 1
  }

  /** No cell is stamped twice in one list. */
  predicate NoDupCells(ss: seq<Stamp>) {
    forall i, j :: 0 <= i < j < |ss| ==> !SameCell(ss[i], ss[j].row, ss[j].col)
  }

  /** No cell is stamped in both lists. */
  predicate Apart(a: seq<Stamp>, b: seq<Stamp>) {
    forall i, j :: 0 <= i < |a| && 0 <= j < |b| ==> !SameCell(a[i], b[j].row, b[j].col)
  }

  /** The per-player lists of one VS game hold pairwise distinct cells. */
  predicate Exclusive(lists: seq<seq<Stamp>>) {
    (forall i :: 0 <= i < |lists| ==> NoDupCells(lists[i])) &&
    (forall i, j :: 0 <= i < |lists| && 0 <= j < |lists| && i != j ==> Apart(lists[i], lists[j]))
  }

  /** Some list other than the `me`-th holds (r, c): `isStampedByOther`. */
  predicate HeldByOther(lists: seq<seq<Stamp>>, me: nat, r: Num, c: Num) {
    exists j :: 0 <= j < |lists| && j != me && Holds(lists[j], r, c)
  }

  /** `splice(k, 1)`: the k-th stamp is dropped and the others keep their order. */
  function RemoveAt(ss: seq<Stamp>, k: nat): (r: seq<Stamp>)
    requires k < |ss|
    ensures |r| == |ss| - 1
    ensures forall j :: 0 <= j < |r| ==> r[j] == if j < k then ss[j] else ss[j + 1]
    ensures multiset(r) == multiset(ss) - multiset{ss[k]}
  {
    assert ss == ss[..k] + [ss[k]] + ss[k + 1..];
    ss[..k] + ss[k + 1..]
  }

  /** The outcome of a VS stamp request on the `me`-th list: `None` when
      another player holds the cell (nothing is written), otherwise the
      player's new list. */
  function Toggle(lists: seq<seq<Stamp>>, me: nat, r: Num, c: Num, color: string): (res: Option<seq<Stamp>>)
    requires me < |lists|
    ensures res.None? <==> !Holds(lists[me], r, c) && HeldByOther(lists, me, r, c)
  {
    var mine := lists[me];
    var k := FindStamp(mine, r, c);
    if k != -1 then Some(RemoveAt(mine, k))
    else if HeldByOther(lists, me, r, c) then None
    else Some(mine + [Stamp(r, c, color)])
  }

  /** A toggle removes the player's stamp on a cell the player holds, and
      otherwise adds one unless someone else holds the cell. */
  lemma ToggleEffect(lists: seq<seq<Stamp>>, me: nat, r: Num, c: Num, color: string)
    requires me < |lists| && NoDupCells(lists[me])
    ensures Holds(lists[me], r, c) ==>
              var k := FindStamp(lists[me], r, c);
              var res := Toggle(lists, me, r, c, color);
              res == Some(RemoveAt(lists[me], k)) && !Holds(res.value, r, c) &&
              multiset(res.value) == multiset(lists[me]) - multiset{lists[me][k]} &&
              forall s :: s in lists[me] && !SameCell(s, r, c) ==> s in res.value
    ensures !Holds(lists[me], r, c) && !HeldByOther(lists, me, r, c) ==>
              Toggle(lists, me, r, c, color) == Some(lists[me] + [Stamp(r, c, color)])
  {
    var mine := lists[me];
    var k := FindStamp(mine, r, c);
    if k != -1 {
      var rest := RemoveAt(mine, k);
      forall j | 0 <= j < |rest| ensures !SameCell(rest[j], r, c) {
        if j < k {
          assert rest[j] == mine[j];
        } else {
          assert rest[j] == mine[j + 1];
          assert !SameCell(mine[k], mine[j + 1].row, mine[j + 1].col);
        }
      }
    }
  }

  /** The toggle keeps every VS game exclusive: no coordinate is ever held by
      two players, and no player holds one twice. */
  lemma ToggleKeepsExclusive(lists: seq<seq<Stamp>>, me: nat, r: Num, c: Num, color: string)
    requires me < |lists| && Exclusive(lists)
    requires Toggle(lists, me, r, c, color).Some?
    ensures Exclusive(lists[me := Toggle(lists, me, r, c, color).value])
  {
    var mine := lists[me];
    var k := FindStamp(mine, r, c);
    var next := Toggle(lists, me, r, c, color).value;
    var after := lists[me := next];
    if k != -1 {
      forall i, j | 0 <= i < j < |next| ensures !SameCell(next[i], next[j].row, next[j].col) {
        var i', j' := if i < k then i else i + 1, if j < k then j else j + 1;
        assert next[i] == mine[i'] && next[j] == mine[j'];
      }
      forall i, j | 0 <= i < |after| && 0 <= j < |after| && i != j ensures Apart(after[i], after[j]) {
        forall a, b | 0 <= a < |after[i]| && 0 <= b < |after[j]|
          ensures !SameCell(after[i][a], after[j][b].row, after[j][b].col)
        {
          if i == me {
            var a' := if a < k then a else a + 1;
            assert after[i][a] == mine[a'];
            assert Apart(lists[me], lists[j]);
          } else if j == me {
            var b' := if b < k then b else b + 1;
            assert after[j][b] == mine[b'];
            assert Apart(lists[i], lists[me]);
          } else {
            assert Apart(lists[i], lists[j]);
          }
        }
      }
    } else {
      var s := Stamp(r, c, color);
      assert next == mine + [s];
      forall i, j | 0 <= i < j < |next| ensures !SameCell(next[i], next[j].row, next[j].col) {
        if j == |mine| {
          assert next[j] == s;
          assert !SameCell(mine[i], r, c);
        } else {
          assert next[i] == mine[i] && next[j] == mine[j];
        }
      }
      forall i, j | 0 <= i < |after| && 0 <= j < |after| && i != j ensures Apart(after[i], after[j]) {
        forall a, b | 0 <= a < |after[i]| && 0 <= b < |after[j]|
          ensures !SameCell(after[i][a], after[j][b].row, after[j][b].col)
        {
          if i == me {
            if a == |mine| {
              assert after[i][a] == s;
              assert !Holds(lists[j], r, c);
              assert after[j][b] == lists[j][b] && !SameCell(lists[j][b], r, c);
            } else {
              assert after[i][a] == mine[a];
              assert Apart(lists[me], lists[j]);
            }
          } else if j == me {
            if b == |mine| {
              assert after[j][b] == s;
              assert !Holds(lists[i], r, c);
            } else {
              assert after[j][b] == mine[b];
              assert Apart(lists[i], lists[me]);
            }
          } else {
            assert Apart(lists[i], lists[j]);
          }
        }
      }
    }
  }

  // ---------------------------------------------------------------- removing stamps

  /** `positions.some(([r, c]) => r === s.row && c === s.col)`. */
  predicate AtAny(s: Stamp, positions: seq<Cards.RawPos>) {
    exists k :: 0 <= k < |positions| && SameCell(s, positions[k].0, positions[k].1)
  }

  /** The VS reroll purge: `stampedSquares.filter(s => !positions.some(...))`. */
  function Purge(ss: seq<Stamp>, positions: seq<Cards.RawPos>): (r: seq<Stamp>)
    ensures forall s :: s in r <==> s in ss && !AtAny(s, positions)
    ensures IsSubsequence(r, ss)
  {
    if ss == [] then []
    else
      var rest := Purge(ss[1..], positions);
      assert forall s :: s in ss[1..] ==> s in ss;
      if AtAny(ss[0], positions) then rest else [ss[0]] + rest
  }

  /** `stampedSquares.filter(s => !(s.row === row && s.col === col))` after a
      passed vote. */
  function ClearCell(ss: seq<Stamp>, r: Num, c: Num): (res: seq<Stamp>)
    ensures forall s :: s in res <==> s in ss && !SameCell(s, r, c)
    ensures IsSubsequence(res, ss)
  {
    if ss == [] then []
    else
      var rest := ClearCell(ss[1..], r, c);
      assert forall s :: s in ss[1..] ==> s in ss;
      if SameCell(ss[0], r, c) then rest else [ss[0]] + rest
  }

  /** `a` is `b` with some elements dropped, the rest kept in order. */
  predicate IsSubsequence(a: seq<Stamp>, b: seq<Stamp>)
    decreases |b|
  {
    if a == [] then true
    else if b == [] then false
    else if a[0] == b[0] then IsSubsequence(a[1..], b[1..])
    else IsSubsequence(a, b[1..])
  }

  /** Every list is a subsequence of itself. */
  lemma {:induction false} SubsequenceOfItself(a: seq<Stamp>)
    ensures IsSubsequence(a, a)
    decreases |a|
  {
    if a != [] {
      SubsequenceOfItself(a[1..]);
    }
  }

  lemma {:induction false} SubsequenceElements(a: seq<Stamp>, b: seq<Stamp>)
    requires IsSubsequence(a, b)
    ensures forall s :: s in a ==> s in b
    decreases |b|
  {
    if a != [] && b != [] {
      if a[0] == b[0] {
        SubsequenceElements(a[1..], b[1..]);
        assert forall s :: s in a ==> s == a[0] || s in a[1..];
      } else {
        SubsequenceElements(a, b[1..]);
      }
    }
  }

  /** Dropping stamps keeps a list free of repeated cells. */
  lemma {:induction false} SubsequenceNoDup(a: seq<Stamp>, b: seq<Stamp>)
    requires IsSubsequence(a, b) && NoDupCells(b)
    ensures NoDupCells(a)
    decreases |b|
  {
    if a != [] && b != [] {
      assert NoDupCells(b[1..]) by {
        forall i, j | 0 <= i < j < |b[1..]| ensures !SameCell(b[1..][i], b[1..][j].row, b[1..][j].col) {
          assert b[1..][i] == b[i + 1] && b[1..][j] == b[j + 1];
        }
      }
      if a[0] == b[0] {
        SubsequenceNoDup(a[1..], b[1..]);
        SubsequenceElements(a[1..], b[1..]);
        forall i, j | 0 <= i < j < |a| ensures !SameCell(a[i], a[j].row, a[j].col) {
          if i == 0 {
            assert a[j] == a[1..][j - 1];
            assert a[j] in b[1..];
            var m :| 0 <= m < |b[1..]| && b[1..][m] == a[j];
            assert b[m + 1] == a[j];
          } else {
            assert a[i] == a[1..][i - 1] && a[j] == a[1..][j - 1];
          }
        }
      } else {
        SubsequenceNoDup(a, b[1..]);
      }
    }
  }

  /** Removing stamps from any players' lists keeps a VS game exclusive. */
  lemma ShrinkKeepsExclusive(lists: seq<seq<Stamp>>, smaller: seq<seq<Stamp>>)
    requires Exclusive(lists) && |smaller| == |lists|
    requires forall i :: 0 <= i < |lists| ==> IsSubsequence(smaller[i], lists[i])
    ensures Exclusive(smaller)
  {
    forall i | 0 <= i < |lists| ensures NoDupCells(smaller[i]) {
      SubsequenceNoDup(smaller[i], lists[i]);
    }
    forall i, j | 0 <= i < |lists| && 0 <= j < |lists| && i != j ensures Apart(smaller[i], smaller[j]) {
      SubsequenceElements(smaller[i], lists[i]);
      SubsequenceElements(smaller[j], lists[j]);
      forall a, b | 0 <= a < |smaller[i]| && 0 <= b < |smaller[j]|
        ensures !SameCell(smaller[i][a], smaller[j][b].row, smaller[j][b].col)
      {
        assert smaller[i][a] in lists[i] && smaller[j][b] in lists[j];
        var a' :| 0 <= a' < |lists[i]| && lists[i][a'] == smaller[i][a];
        var b' :| 0 <= b' < |lists[j]| && lists[j][b'] == smaller[j][b];
        assert Apart(lists[i], lists[j]);
      }
    }
  }
}
