/** Append-only rows with a version and a stamp, read as of a cutoff by the highest version. */
module VersionedRows {
  import opened Common

  function TopVersion<T>(rows: seq<T>, version: T -> nat): nat {
    if rows == [] then 0
    else
      var n := |rows| - 1;
      var top := TopVersion(rows[..n], version);
      if version(rows[n]) > top then version(rows[n]) else top
  }

  lemma {:induction false} TopVersionMeaning<T>(rows: seq<T>, version: T -> nat)
    ensures forall r <- rows :: version(r) <= TopVersion(rows, version)
    ensures TopVersion(rows, version) == 0 || exists r <- rows :: version(r) == TopVersion(rows, version)
  {
    if rows != [] {
      var n := |rows| - 1;
      TopVersionMeaning(rows[..n], version);
      assert rows == rows[..n] + [rows[n]] && rows[n] in rows;
    }
  }

  /** The row of the highest version among those stamped at or before the cutoff. */
  function LatestBy<T>(rows: seq<T>, version: T -> nat, stamp: T -> int, cutoff: int): Option<T> {
    if rows == [] then None
    else
      var n := |rows| - 1;
      var before := LatestBy(rows[..n], version, stamp, cutoff);
      if stamp(rows[n]) <= cutoff && (before.None? || version(rows[n]) > version(before.value))
      then Some(rows[n]) else before
  }

  /** Versions 1, 2, ..., n with pairwise distinct stamps. */
  ghost predicate Dense<T>(rows: seq<T>, version: T -> nat, stamp: T -> int) {
    && (forall k :: 0 <= k < |rows| ==> version(rows[k]) == k + 1)
    && (forall i, j :: 0 <= i < j < |rows| ==> stamp(rows[i]) != stamp(rows[j]))
  }

  lemma {:induction false} DenseTop<T>(rows: seq<T>, version: T -> nat, stamp: T -> int)
    requires Dense(rows, version, stamp)
    ensures TopVersion(rows, version) == |rows|
  {
    if rows != [] {
      DenseTop(rows[..|rows| - 1], version, stamp);
    }
  }

  /** The versions an append allocates stay dense, given a stamp that no row has. */
  lemma DenseAppend<T>(rows: seq<T>, version: T -> nat, stamp: T -> int, row: T)
    requires Dense(rows, version, stamp)
    requires version(row) == TopVersion(rows, version) + 1
    requires forall k :: 0 <= k < |rows| ==> stamp(rows[k]) != stamp(row)
    ensures Dense(rows + [row], version, stamp)
  {
    DenseTop(rows, version, stamp);
  }

  ghost predicate IsLatest<T>(rows: seq<T>, version: T -> nat, stamp: T -> int, cutoff: int, row: T) {
    && row in rows && stamp(row) <= cutoff
    && forall r <- rows :: stamp(r) <= cutoff ==> version(r) <= version(row)
  }

  lemma {:induction false} LatestByFinds<T>(rows: seq<T>, version: T -> nat, stamp: T -> int, cutoff: int)
    ensures match LatestBy(rows, version, stamp, cutoff)
            case Some(row) => IsLatest(rows, version, stamp, cutoff, row)
            case None => forall r <- rows :: stamp(r) > cutoff
  {
    if rows != [] {
      LatestByFinds(rows[..|rows| - 1], version, stamp, cutoff);
    }
  }

  /** With dense versions the query has exactly one answer: the row of the highest version by the cutoff. */
  lemma LatestByMeaning<T(!new)>(rows: seq<T>, version: T -> nat, stamp: T -> int, cutoff: int, row: T)
    requires Dense(rows, version, stamp)
    ensures LatestBy(rows, version, stamp, cutoff) == Some(row) <==> IsLatest(rows, version, stamp, cutoff, row)
    ensures LatestBy(rows, version, stamp, cutoff).None? <==> forall r <- rows :: stamp(r) > cutoff
  {
    LatestByFinds(rows, version, stamp, cutoff);
  }

  ghost predicate InStampOrder<T>(rows: seq<T>, stamp: T -> int) {
    forall i, j :: 0 <= i < j < |rows| ==> stamp(rows[i]) < stamp(rows[j])
  }

  /** The highest version by the cutoff is also the row of the latest stamp by the cutoff. */
  ghost predicate LatestStampWins<T>(rows: seq<T>, version: T -> nat, stamp: T -> int, cutoff: int) {
    var latest := LatestBy(rows, version, stamp, cutoff);
    latest.Some? ==> forall r <- rows :: stamp(r) <= cutoff ==> stamp(r) <= stamp(latest.value)
  }

  lemma OrderedStampsWin<T(!new)>(rows: seq<T>, version: T -> nat, stamp: T -> int, cutoff: int)
    requires Dense(rows, version, stamp) && InStampOrder(rows, stamp)
    ensures LatestStampWins(rows, version, stamp, cutoff)
  {
    LatestByFinds(rows, version, stamp, cutoff);
    var latest := LatestBy(rows, version, stamp, cutoff);
    if latest.Some? {
      var j :| 0 <= j < |rows| && rows[j] == latest.value;
      forall r | r in rows && stamp(r) <= cutoff
        ensures stamp(r) <= stamp(latest.value)
      {
        var i :| 0 <= i < |rows| && rows[i] == r;
      }
    }
  }

  lemma InvertedStampsLose<T(!new)>(rows: seq<T>, version: T -> nat, stamp: T -> int, i: nat, j: nat)
    requires Dense(rows, version, stamp) && i < j < |rows| && stamp(rows[i]) > stamp(rows[j])
    ensures !LatestStampWins(rows, version, stamp, stamp(rows[i]))
  {
    var cutoff := stamp(rows[i]);
    LatestByFinds(rows, version, stamp, cutoff);
    assert rows[i] in rows && rows[j] in rows;
    var latest := LatestBy(rows, version, stamp, cutoff).value;
    assert version(latest) >= version(rows[j]);
    var k :| 0 <= k < |rows| && rows[k] == latest;
    assert stamp(rows[k]) != stamp(rows[i]);
  }

  /** Reading the highest version means reading the latest stamp, at every cutoff, exactly when rows come in stamp order. */
  lemma HighestVersionIsLatestStamp<T(!new)>(rows: seq<T>, version: T -> nat, stamp: T -> int)
    requires Dense(rows, version, stamp)
    ensures InStampOrder(rows, stamp) <==> forall cutoff :: LatestStampWins(rows, version, stamp, cutoff)
  {
    if InStampOrder(rows, stamp) {
      forall cutoff {
        OrderedStampsWin(rows, version, stamp, cutoff);
      }
    } else {
      var i, j :| 0 <= i < j < |rows| && stamp(rows[i]) >= stamp(rows[j]);
      InvertedStampsLose(rows, version, stamp, i, j);
    }
  }
}
