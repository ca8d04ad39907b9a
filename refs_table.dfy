/** The archiver's temporal table of refs: one row per period during which
    a ref pointed at one commit, and the two writes an update makes to it,
    closing the latest period of a ref and opening a new one. */
module RefsTable {
  import opened Wrappers
  import opened Text
  import opened Refs

  /** A commit hash, as `git rev-parse` prints it. */
  type Sha = string

  /** A row of the table: `toDate` is `None` while the period is open. */
  datatype Row = Row(remote: string, name: string, fromDate: string, toDate: Option<string>, sha: Sha, tag: bool)

  /** The row is about the ref `remote`/`name`; the close step looks at
      nothing else, neither the tag flag nor whether the row is closed. */
  predicate Keyed(row: Row, remote: string, name: string) {
    row.remote == remote && row.name == name
  }

  // ---- Close ----

  /** The row the close step updates: a keyed row with the greatest
      `fromDate`, the last one among equal dates. */
  function Latest(rows: seq<Row>, remote: string, name: string): (k: Option<nat>)
    ensures k.None? <==> forall i :: 0 <= i < |rows| ==> !Keyed(rows[i], remote, name)
    ensures k.Some? ==> k.value < |rows| && Keyed(rows[k.value], remote, name)
  {
    if rows == [] then None
    else
      var init := rows[..|rows| - 1];
      var k := Latest(init, remote, name);
      var last := rows[|rows| - 1];
      assert forall i :: 0 <= i < |init| ==> init[i] == rows[i];
      if !Keyed(last, remote, name) then k
      else if k.None? || LexLe(rows[k.value].fromDate, last.fromDate) then Some(|rows| - 1)
      else k
  }

  /** The chosen row has the greatest `fromDate` of the keyed rows, and no
      later keyed row has the same date. */
  lemma {:induction false} LatestIsGreatest(rows: seq<Row>, remote: string, name: string)
    requires Latest(rows, remote, name).Some?
    ensures var k := Latest(rows, remote, name).value;
            forall i :: 0 <= i < |rows| && Keyed(rows[i], remote, name) ==> LexLe(rows[i].fromDate, rows[k].fromDate)
    ensures var k := Latest(rows, remote, name).value;
            forall i :: k < i < |rows| && Keyed(rows[i], remote, name) ==> rows[i].fromDate != rows[k].fromDate
  {
    var init := rows[..|rows| - 1];
    var last := rows[|rows| - 1];
    var k := Latest(rows, remote, name).value;
    var j := Latest(init, remote, name);
    assert forall i :: 0 <= i < |init| ==> init[i] == rows[i];
    if j.Some? {
      LatestIsGreatest(init, remote, name);
    }
    forall i | 0 <= i < |rows| && Keyed(rows[i], remote, name)
      ensures LexLe(rows[i].fromDate, rows[k].fromDate)
    {
      if k == |rows| - 1 {
        if i == k {
          LexLeRefl(last.fromDate);
        } else {
          LexLeTransitive(rows[i].fromDate, rows[j.value].fromDate, last.fromDate);
        }
      } else if i == |rows| - 1 {
        LexLeTotal(rows[k].fromDate, last.fromDate);
      }
    }
  }

  /** The close step for one ref: the `UPDATE … ORDER BY from_date DESC
      LIMIT 1` statement that sets `to_date` on the ref's latest row. */
  function CloseLatest(rows: seq<Row>, remote: string, name: string, time: string): (r: seq<Row>)
    ensures |r| == |rows|
    ensures Latest(rows, remote, name).None? ==> r == rows
    ensures Latest(rows, remote, name).Some? ==>
              var k := Latest(rows, remote, name).value;
              r[k] == rows[k].(toDate := Some(time)) && forall i :: 0 <= i < |rows| && i != k ==> r[i] == rows[i]
  {
    match Latest(rows, remote, name)
    case None => rows
    case Some(k) => rows[k := rows[k].(toDate := Some(time))]
  }

  /** The close steps for a sequence of refs, first to last. */
  function CloseAll(rows: seq<Row>, refs: seq<Ref>, time: string): (r: seq<Row>)
    ensures |r| == |rows|
    ensures forall i :: 0 <= i < |rows| ==> r[i].sha == rows[i].sha && r[i].fromDate == rows[i].fromDate
  {
    if refs == [] then rows
    else
      var last := refs[|refs| - 1];
      CloseLatest(CloseAll(rows, refs[..|refs| - 1], time), last.remote, last.name, time)
  }

  /** `b` is `a` with at most its `toDate` set to `time`. */
  predicate ClosedOrSame(a: Row, b: Row, time: string) {
    b == a || b == a.(toDate := Some(time))
  }

  /** Closing keeps the rows and their order, and changes nothing but the
      `toDate` of rows keyed by one of the refs, which becomes `time`. */
  lemma {:induction false} CloseAllOnlyCloses(rows: seq<Row>, refs: seq<Ref>, time: string)
    ensures |CloseAll(rows, refs, time)| == |rows|
    ensures forall i :: 0 <= i < |rows| ==> ClosedOrSame(rows[i], CloseAll(rows, refs, time)[i], time)
    ensures forall i :: 0 <= i < |rows| && (forall j :: 0 <= j < |refs| ==> !Keyed(rows[i], refs[j].remote, refs[j].name))
              ==> CloseAll(rows, refs, time)[i] == rows[i]
  {
    if refs != [] {
      var init := refs[..|refs| - 1];
      var last := refs[|refs| - 1];
      CloseAllOnlyCloses(rows, init, time);
      var mid := CloseAll(rows, init, time);
      assert forall j :: 0 <= j < |init| ==> init[j] == refs[j];
      forall i | 0 <= i < |rows|
        ensures ClosedOrSame(rows[i], CloseAll(rows, refs, time)[i], time)
      {
        assert ClosedOrSame(rows[i], mid[i], time);
      }
    }
  }

  /** The row the close step picks depends only on the keys and the dates,
      so closing rows never changes which row is a ref's latest. */
  lemma {:induction false} LatestSameDates(rows: seq<Row>, rows': seq<Row>, remote: string, name: string)
    requires |rows'| == |rows|
    requires forall i :: 0 <= i < |rows| ==>
               rows'[i].remote == rows[i].remote && rows'[i].name == rows[i].name && rows'[i].fromDate == rows[i].fromDate
    ensures Latest(rows', remote, name) == Latest(rows, remote, name)
  {
    if rows != [] {
      var init := rows[..|rows| - 1];
      var init' := rows'[..|rows| - 1];
      LatestSameDates(init, init', remote, name);
    }
  }

  /** After the close loop the latest row of every listed ref is closed at
      `time`, whatever else the loop closed before or after it. */
  lemma {:induction false} CloseAllClosesLatest(rows: seq<Row>, refs: seq<Ref>, time: string)
    ensures forall j :: 0 <= j < |refs| && Latest(rows, refs[j].remote, refs[j].name).Some? ==>
              CloseAll(rows, refs, time)[Latest(rows, refs[j].remote, refs[j].name).value].toDate == Some(time)
  {
    if refs != [] {
      var init := refs[..|refs| - 1];
      var last := refs[|refs| - 1];
      var mid := CloseAll(rows, init, time);
      var r := CloseAll(rows, refs, time);
      CloseAllClosesLatest(rows, init, time);
      CloseAllOnlyCloses(rows, init, time);
      assert forall i :: 0 <= i < |rows| ==> ClosedOrSame(rows[i], mid[i], time);
      LatestSameDates(rows, mid, last.remote, last.name);
      forall j | 0 <= j < |refs| && Latest(rows, refs[j].remote, refs[j].name).Some?
        ensures r[Latest(rows, refs[j].remote, refs[j].name).value].toDate == Some(time)
      {
        var k := Latest(rows, refs[j].remote, refs[j].name).value;
        if j < |init| {
          assert init[j] == refs[j];
          assert mid[k].toDate == Some(time);
        }
      }
    }
  }

  /** The close step does not look at the tag flag or at `toDate`: closing
      the branch `origin/v1` re-closes the already closed tag row `v1`. */
  lemma CloseIgnoresTagAndToDate()
    ensures CloseLatest([Row(Origin, "v1", "a", Some("b"), "one", true)], Origin, "v1", "c")
            == [Row(Origin, "v1", "a", Some("c"), "one", true)]
  {
  }

  // ---- Open ----

  /** The row the open step inserts for a ref resolved to `sha`. */
  function OpenRow(ref: Ref, sha: Sha, time: string): (row: Row)
    ensures Keyed(row, ref.remote, ref.name) && row.tag == ref.tag
    ensures row.fromDate == time && row.toDate.None? && row.sha == sha
  {
    Row(ref.remote, ref.name, time, None, sha, ref.tag)
  }

  /** The open steps for a sequence of refs and their hashes, first to last. */
  function OpenAll(rows: seq<Row>, refs: seq<Ref>, shas: seq<Sha>, time: string): (r: seq<Row>)
    requires |shas| == |refs|
    ensures |r| == |rows| + |refs| && r[..|rows|] == rows
  {
    if refs == [] then rows
    else OpenAll(rows, refs[..|refs| - 1], shas[..|shas| - 1], time)
         + [OpenRow(refs[|refs| - 1], shas[|shas| - 1], time)]
  }

  /** Opening keeps every existing row as it is and appends exactly one
      open row per ref, in order. */
  lemma {:induction false} OpenAllAppends(rows: seq<Row>, refs: seq<Ref>, shas: seq<Sha>, time: string)
    requires |shas| == |refs|
    ensures |OpenAll(rows, refs, shas, time)| == |rows| + |refs|
    ensures OpenAll(rows, refs, shas, time)[..|rows|] == rows
    ensures forall i :: 0 <= i < |refs| ==> OpenAll(rows, refs, shas, time)[|rows| + i] == OpenRow(refs[i], shas[i], time)
  {
    if refs != [] {
      var n := |refs| - 1;
      OpenAllAppends(rows, refs[..n], shas[..n], time);
      var r := OpenAll(rows, refs, shas, time);
      assert r[..|rows| + n] == OpenAll(rows, refs[..n], shas[..n], time);
      assert r[..|rows|] == r[..|rows| + n][..|rows|];
    }
  }

  // ---- Resolution ----

  /** The hashes of the refs under `git rev-parse`, modelled as a fixed map
      from names to hashes; a name missing from it fails the update. */
  function Resolve(refs: seq<Ref>, resolve: map<string, Sha>): (r: Result<seq<Sha>, Error>)
    ensures r.Ok? <==> forall i :: 0 <= i < |refs| ==> RefName(refs[i]) in resolve
    ensures r.Ok? ==> |r.value| == |refs| && forall i :: 0 <= i < |refs| ==> r.value[i] == resolve[RefName(refs[i])]
    ensures r.Err? ==> exists i :: 0 <= i < |refs| && RefName(refs[i]) !in resolve && r.error == MissingRef(RefName(refs[i]))
  {
    if refs == [] then Ok([])
    else
      var init := refs[..|refs| - 1];
      var last := refs[|refs| - 1];
      assert forall i :: 0 <= i < |init| ==> init[i] == refs[i];
      match Resolve(init, resolve)
      case Err(e) => Err(e)
      case Ok(shas) =>
        if RefName(last) !in resolve then Err(MissingRef(RefName(last)))
        else Ok(shas + [resolve[RefName(last)]])
  }

  /** Resolving one more ref that resolves appends its hash. */
  lemma ResolveSnoc(refs: seq<Ref>, resolve: map<string, Sha>, n: nat)
    requires n < |refs| && Resolve(refs[..n], resolve).Ok? && RefName(refs[n]) in resolve
    ensures Resolve(refs[..n + 1], resolve) == Ok(Resolve(refs[..n], resolve).value + [resolve[RefName(refs[n])]])
  {
    assert refs[..n + 1][..n] == refs[..n];
  }

  /** Opening one more ref appends its row. */
  lemma OpenAllSnoc(rows: seq<Row>, refs: seq<Ref>, shas: seq<Sha>, n: nat, sha: Sha, time: string)
    requires n < |refs| && |shas| == n
    ensures OpenAll(rows, refs[..n + 1], shas + [sha], time) == OpenAll(rows, refs[..n], shas, time) + [OpenRow(refs[n], sha, time)]
  {
    assert refs[..n + 1][..n] == refs[..n];
    assert (shas + [sha])[..n] == shas;
  }

  /** Resolution stops at the first ref that does not resolve. */
  lemma {:induction false} ResolveStops(refs: seq<Ref>, resolve: map<string, Sha>, n: nat)
    requires n < |refs| && Resolve(refs[..n], resolve).Ok? && RefName(refs[n]) !in resolve
    ensures Resolve(refs, resolve) == Err(MissingRef(RefName(refs[n])))
  {
    var init := refs[..|refs| - 1];
    if n < |refs| - 1 {
      assert init[..n] == refs[..n] && init[n] == refs[n];
      ResolveStops(init, resolve, n);
    } else {
      assert init == refs[..n];
    }
  }

  // ---- The table part of the unit test ----

  const T1 := "17:01"
  const T3 := "17:03"
  const T4 := "17:04"
  const T6 := "17:06"

  const Br1 := Ref(Origin, "br1", false)
  const Br2 := Ref(Origin, "br2", false)

  /** The table after each update of the Python unit test's scenario
      (times written as minutes, hashes as the commit messages): br1 is
      pushed, moved on, forced back, then deleted while br2 is pushed. */
  const History1 := [Row(Origin, "br1", T1, None, "one", false)]
  const History2 := [Row(Origin, "br1", T1, Some(T3), "one", false), Row(Origin, "br1", T3, None, "two", false)]
  const History3 := [Row(Origin, "br1", T1, Some(T3), "one", false), Row(Origin, "br1", T3, Some(T4), "two", false),
                     Row(Origin, "br1", T4, None, "one", false)]
  const History4 := [Row(Origin, "br1", T1, Some(T3), "one", false), Row(Origin, "br1", T3, Some(T4), "two", false),
                     Row(Origin, "br1", T4, Some(T6), "one", false), Row(Origin, "br2", T6, None, "three", false)]

  lemma TablePushed()
    ensures OpenAll(CloseAll([], [], T1), [Br1], ["one"], T1) == History1
  {
  }

  lemma TableMoved()
    ensures OpenAll(CloseAll(History1, [Br1], T3), [Br1], ["two"], T3) == History2
  {
  }

  /** Only the open row of br1 (the one from 17:03) is closed. */
  lemma TableForced()
    ensures OpenAll(CloseAll(History2, [Br1], T4), [Br1], ["one"], T4) == History3
  {
  }

  lemma TableReplaced()
    ensures OpenAll(CloseAll(History3, [Br1], T6), [Br2], ["three"], T6) == History4
  {
  }
}
