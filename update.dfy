/** One run of the archiver over a mirror repository: fetch, close the
    periods of removed and changed refs, open periods for changed and new
    refs, create a keeper for every recorded commit, and prune keepers made
    redundant. The mirror is an object whose table rows and branches the
    update changes in place. */
module Archive {
  import opened Wrappers
  import opened Refs
  import opened RefsTable
  import opened Keepers
  import Git
  import DoubleGit

  /** The refs whose latest period the update closes: removed ones, then
      changed ones. */
  function Closes(o: DoubleGit.FetchLists): seq<Ref> {
    o.removed + o.changed
  }

  /** The refs the update records: changed ones, then new ones. */
  function Targets(o: DoubleGit.FetchLists): seq<Ref> {
    o.changed + o.created
  }

  /** The prune loop's input: each recorded commit with its tag flag. */
  function Marks(refs: seq<Ref>, shas: seq<Sha>): (m: seq<(Sha, bool)>)
    requires |shas| == |refs|
    ensures |m| == |refs|
  {
    seq(|refs|, i requires 0 <= i < |refs| => (shas[i], refs[i].tag))
  }

  /** The part of a mirror an update changes. */
  datatype State = State(rows: seq<Row>, branches: map<string, Sha>)

  /** The table and branches after the update's writes, given the refs it
      closes, the refs it records and their hashes. */
  function Apply(g: Graph, st: State, closes: seq<Ref>, targets: seq<Ref>, shas: seq<Sha>, time: string): (r: State)
    requires |shas| == |targets|
    ensures |r.rows| == |st.rows| + |targets|
    ensures forall b :: b in r.branches && !IsKeeperName(b) ==> b in st.branches && r.branches[b] == st.branches[b]
  {
    State(OpenAll(CloseAll(st.rows, closes, time), targets, shas, time),
          PruneAll(g, CreateKeepers(g, st.branches, shas), Marks(targets, shas)))
  }

  /** What one update of `st` does, given the fetch output, the hashes the
      refs resolve to afterwards, and the time of the update. */
  function UpdateSpec(g: Graph, st: State, lines: seq<Git.Line>, resolve: map<string, Sha>, time: string): (r: Result<State, Error>)
    ensures DoubleGit.PySpec(lines).Err? ==> r == Err(DoubleGit.PySpec(lines).error)
    ensures r.Ok? ==> |r.value.rows| == |st.rows| + |Targets(DoubleGit.PySpec(lines).value)|
    ensures r.Ok? ==> forall b :: b in r.value.branches && !IsKeeperName(b) ==>
                        b in st.branches && r.value.branches[b] == st.branches[b]
  {
    match DoubleGit.PySpec(lines)
    case Err(e) => Err(e)
    case Ok(o) =>
      match Resolve(Targets(o), resolve)
      case Err(e) => Err(e)
      case Ok(shas) => Ok(Apply(g, st, Closes(o), Targets(o), shas, time))
  }

  /** Every branch is a keeper, and every commit the table has ever
      recorded is kept alive by some branch, so that garbage collection
      cannot lose it. For a row holding an annotated-tag object that is
      the commit the tag names: no branch can keep the tag object itself
      alive (`TagObjectUnkept`). */
  ghost predicate Alive(g: Graph, st: State) {
    KeepersTrue(g, st.branches) && forall i :: 0 <= i < |st.rows| ==> Covered(g, st.branches, Peel(g, st.rows[i].sha))
  }

  /** After the keeper loop the commit of every recorded hash is kept
      alive. */
  lemma MarksCovered(g: Graph, br: map<string, Sha>, targets: seq<Ref>, shas: seq<Sha>)
    requires |shas| == |targets|
    ensures forall i :: 0 <= i < |targets| ==> Covered(g, CreateKeepers(g, br, shas), Peel(g, Marks(targets, shas)[i].0))
  {
    var kept := CreateKeepers(g, br, shas);
    CreateKeepersKeep(g, br, shas);
    forall i | 0 <= i < |targets| ensures Covered(g, kept, Peel(g, Marks(targets, shas)[i].0)) {
      assert Marks(targets, shas)[i].0 == shas[i];
      assert KeepName(shas[i]) in kept && IsAncestor(g, Peel(g, shas[i]), kept[KeepName(shas[i])]);
    }
  }

  /** Branches that keep alive the old rows' commits and the recorded
      commits keep alive every row after the table writes. */
  lemma RowsCovered(g: Graph, st: State, closes: seq<Ref>, targets: seq<Ref>, shas: seq<Sha>, time: string, kept: map<string, Sha>)
    requires |shas| == |targets|
    requires forall i :: 0 <= i < |st.rows| ==> Covered(g, kept, Peel(g, st.rows[i].sha))
    requires forall j :: 0 <= j < |targets| ==> Covered(g, kept, Peel(g, Marks(targets, shas)[j].0))
    ensures var rows := Apply(g, st, closes, targets, shas, time).rows;
            forall i :: 0 <= i < |rows| ==> Covered(g, kept, Peel(g, rows[i].sha))
  {
    var closed := CloseAll(st.rows, closes, time);
    var rows := OpenAll(closed, targets, shas, time);
    CloseAllOnlyCloses(st.rows, closes, time);
    OpenAllAppends(closed, targets, shas, time);
    forall i | 0 <= i < |rows| ensures Covered(g, kept, Peel(g, rows[i].sha)) {
      if i < |closed| {
        assert rows[i] == rows[..|closed|][i];
        assert ClosedOrSame(st.rows[i], closed[i], time);
      } else {
        var j := i - |closed|;
        assert rows[i] == OpenRow(targets[j], shas[j], time);
        assert Marks(targets, shas)[j].0 == shas[j];
      }
    }
  }

  /** The writes keep every recorded commit alive, the old ones and the
      ones they record. */
  lemma ApplyKeepsAlive(g: Graph, st: State, closes: seq<Ref>, targets: seq<Ref>, shas: seq<Sha>, time: string)
    requires |shas| == |targets| && ValidGraph(g) && Alive(g, st)
    ensures Alive(g, Apply(g, st, closes, targets, shas, time))
  {
    var kept := CreateKeepers(g, st.branches, shas);
    var marks := Marks(targets, shas);
    var final := PruneAll(g, kept, marks);
    CreateKeepersSafe(g, st.branches, shas);
    MarksCovered(g, st.branches, targets, shas);
    forall i | 0 <= i < |st.rows| ensures Covered(g, kept, Peel(g, st.rows[i].sha)) {
      assert Covered(g, st.branches, Peel(g, st.rows[i].sha));
    }
    RowsCovered(g, st, closes, targets, shas, time, kept);
    PruneAllSafe(g, kept, marks);
    var rows := Apply(g, st, closes, targets, shas, time).rows;
    forall i | 0 <= i < |rows| ensures Covered(g, final, Peel(g, rows[i].sha)) {
      assert Covered(g, kept, Peel(g, rows[i].sha));
    }
  }

  /** An update that succeeds keeps every recorded commit alive. */
  lemma UpdateKeepsAlive(g: Graph, st: State, lines: seq<Git.Line>, resolve: map<string, Sha>, time: string)
    requires ValidGraph(g) && Alive(g, st) && UpdateSpec(g, st, lines, resolve, time).Ok?
    ensures Alive(g, UpdateSpec(g, st, lines, resolve, time).value)
  {
    var o := DoubleGit.PySpec(lines).value;
    ApplyKeepsAlive(g, st, Closes(o), Targets(o), Resolve(Targets(o), resolve).value, time);
  }

  /** The writes keep the old rows, closing some of them, and append one
      open row per recorded ref, holding its hash. */
  lemma ApplyRows(g: Graph, st: State, closes: seq<Ref>, targets: seq<Ref>, shas: seq<Sha>, time: string)
    requires |shas| == |targets|
    ensures var rows := Apply(g, st, closes, targets, shas, time).rows;
            |rows| == |st.rows| + |targets|
            && (forall i :: 0 <= i < |st.rows| ==> ClosedOrSame(st.rows[i], rows[i], time))
            && forall j :: 0 <= j < |targets| ==> rows[|st.rows| + j] == OpenRow(targets[j], shas[j], time)
  {
    var closed := CloseAll(st.rows, closes, time);
    var rows := OpenAll(closed, targets, shas, time);
    CloseAllOnlyCloses(st.rows, closes, time);
    OpenAllAppends(closed, targets, shas, time);
    forall i | 0 <= i < |st.rows| ensures ClosedOrSame(st.rows[i], rows[i], time) {
      assert rows[i] == rows[..|closed|][i];
    }
  }

  /** An update that succeeds keeps the old rows, closing some of them, and
      appends one open row per recorded ref, holding the hash it resolves
      to. */
  lemma UpdateRows(g: Graph, st: State, lines: seq<Git.Line>, resolve: map<string, Sha>, time: string)
    requires UpdateSpec(g, st, lines, resolve, time).Ok?
    ensures var targets := Targets(DoubleGit.PySpec(lines).value);
            var rows := UpdateSpec(g, st, lines, resolve, time).value.rows;
            |rows| == |st.rows| + |targets|
            && (forall i :: 0 <= i < |st.rows| ==> ClosedOrSame(st.rows[i], rows[i], time))
            && forall j :: 0 <= j < |targets| ==>
                 rows[|st.rows| + j] == OpenRow(targets[j], resolve[RefName(targets[j])], time)
  {
    var o := DoubleGit.PySpec(lines).value;
    ApplyRows(g, st, Closes(o), Targets(o), Resolve(Targets(o), resolve).value, time);
  }

  /** An update fails when the fetch output does, or else exactly when a ref
      to record does not resolve. */
  lemma UpdateFails(g: Graph, st: State, lines: seq<Git.Line>, resolve: map<string, Sha>, time: string)
    ensures DoubleGit.PySpec(lines).Err? ==> UpdateSpec(g, st, lines, resolve, time) == Err(DoubleGit.PySpec(lines).error)
    ensures DoubleGit.PySpec(lines).Ok? ==>
              var targets := Targets(DoubleGit.PySpec(lines).value);
              (UpdateSpec(g, st, lines, resolve, time).Err? <==> exists i :: 0 <= i < |targets| && RefName(targets[i]) !in resolve)
  {
  }

  /** A fetch that reports no changed, new or removed ref leaves the table
      and the branches as they were. */
  lemma QuietFetch(g: Graph, st: State, lines: seq<Git.Line>, resolve: map<string, Sha>, time: string)
    ensures DoubleGit.PySpec(lines) == Ok(DoubleGit.NoLists) ==> UpdateSpec(g, st, lines, resolve, time) == Ok(st)
  {
    assert Closes(DoubleGit.NoLists) == [] && Targets(DoubleGit.NoLists) == [];
    assert Marks([], []) == [];
  }

  /** In particular a fetch that prints only progress messages. */
  lemma ProgressOnlyFetch(g: Graph, st: State, lines: seq<Git.Line>, resolve: map<string, Sha>, time: string)
    requires Git.Unindented(lines)
    ensures UpdateSpec(g, st, lines, resolve, time) == Ok(st)
  {
    DoubleGit.PyUnindented(lines);
    QuietFetch(g, st, lines, resolve, time);
  }

  /** The close loop: one `UPDATE` per ref, first to last. */
  method CloseRows(rows: seq<Row>, closes: seq<Ref>, time: string) returns (r: seq<Row>)
    ensures r == CloseAll(rows, closes, time)
  {
    r := rows;
    var i := 0;
    while i < |closes|
      invariant 0 <= i <= |closes|
      invariant r == CloseAll(rows, closes[..i], time)
    {
      assert closes[..i + 1][..i] == closes[..i];
      r := CloseLatest(r, closes[i].remote, closes[i].name, time);
      i := i + 1;
    }
    assert closes[..i] == closes;
  }

  /** The open loop: resolve each ref and insert its row, first to last;
      the first ref that does not resolve stops the update. */
  method OpenRows(rows: seq<Row>, targets: seq<Ref>, resolve: map<string, Sha>, time: string)
    returns (r: Result<(seq<Row>, seq<Sha>), Error>)
    ensures r.Ok? <==> Resolve(targets, resolve).Ok?
    ensures r.Err? ==> r.error == Resolve(targets, resolve).error
    ensures r.Ok? ==> r.value.1 == Resolve(targets, resolve).value
    ensures r.Ok? ==> r.value.0 == OpenAll(rows, targets, r.value.1, time)
  {
    var acc := rows;
    var shas: seq<Sha> := [];
    var i := 0;
    while i < |targets|
      invariant 0 <= i <= |targets|
      invariant Resolve(targets[..i], resolve) == Ok(shas)
      invariant |shas| == i
      invariant acc == OpenAll(rows, targets[..i], shas, time)
    {
      var name := RefName(targets[i]);
      if name !in resolve {
        ResolveStops(targets, resolve, i);
        return Err(MissingRef(name));
      }
      ResolveSnoc(targets, resolve, i);
      OpenAllSnoc(rows, targets, shas, i, resolve[name], time);
      acc := acc + [OpenRow(targets[i], resolve[name], time)];
      shas := shas + [resolve[name]];
      i := i + 1;
    }
    assert targets[..i] == targets;
    return Ok((acc, shas));
  }

  /** A bare mirror of the `origin` remote, with its table of ref periods,
      its keeper branches, and the ancestry of its commits. */
  class Mirror {
    var rows: seq<Row>
    var branches: map<string, Sha>
    const graph: Graph

    ghost predicate Valid()
      reads this
    {
      ValidGraph(graph) && Alive(graph, State(rows, branches))
    }

    /** A fresh mirror: an empty table and no branches. */
    constructor(g: Graph)
      requires ValidGraph(g)
      ensures Valid() && graph == g && rows == [] && branches == map[]
    {
      graph := g;
      rows := [];
      branches := map[];
    }

    /** `git branch -f keep-<s> s` for every hash, first to last; the
        branch points at the commit `s` stands for. */
    method MakeKeepers(shas: seq<Sha>)
      modifies this
      ensures rows == old(rows) && branches == CreateKeepers(graph, old(branches), shas)
    {
      var i := 0;
      while i < |shas|
        invariant 0 <= i <= |shas|
        invariant rows == old(rows)
        invariant branches == CreateKeepers(graph, old(branches), shas[..i])
      {
        assert shas[..i + 1][..i] == shas[..i];
        branches := branches[KeepName(shas[i]) := Peel(graph, shas[i])];
        i := i + 1;
      }
      assert shas[..i] == shas;
    }

    /** Deletes every branch that `s` includes, except the one named
        `keep-<s>`. */
    method DeleteIncluded(s: Sha)
      modifies this
      ensures rows == old(rows) && branches == PruneIncluded(graph, old(branches), s)
    {
      var keeper := KeepName(s);
      var inc := Included(graph, branches, s);
      while inc != {}
        invariant inc <= Included(graph, old(branches), s)
        invariant rows == old(rows)
        invariant branches.Keys == old(branches).Keys - ((Included(graph, old(branches), s) - {keeper}) - inc)
        invariant forall b :: b in branches ==> branches[b] == old(branches)[b]
        decreases |inc|
      {
        var b :| b in inc;
        if b != keeper {
          branches := branches - {b};
        }
        inc := inc - {b};
      }
      assert branches == PruneIncluded(graph, old(branches), s);
    }

    /** One iteration of the prune loop, skipped when an earlier iteration
        has already deleted the keeper of `s`. */
    method PruneRef(s: Sha, tag: bool)
      modifies this
      ensures rows == old(rows) && branches == PruneStep(graph, old(branches), s, tag)
    {
      var keeper := KeepName(s);
      if keeper in branches {
        DeleteIncluded(s);
        if !tag && |Including(graph, branches, s)| > 1 {
          branches := branches - {keeper};
        }
      }
    }

    /** The prune loop over the recorded commits, first to last. */
    method PruneRefs(marks: seq<(Sha, bool)>)
      modifies this
      ensures rows == old(rows) && branches == PruneAll(graph, old(branches), marks)
    {
      var i := 0;
      while i < |marks|
        invariant 0 <= i <= |marks|
        invariant rows == old(rows)
        invariant branches == PruneAll(graph, old(branches), marks[..i])
      {
        assert marks[..i + 1][..i] == marks[..i];
        PruneRef(marks[i].0, marks[i].1);
        i := i + 1;
      }
      assert marks[..i] == marks;
    }

    /** One update. It does what `UpdateSpec` says; when it fails, the
        mirror is as it was, and it always keeps every recorded commit
        alive. */
    method Update(lines: seq<Git.Line>, resolve: map<string, Sha>, time: string) returns (r: Result<(), Error>)
      requires Valid()
      modifies this
      ensures Valid()
      ensures r.Ok? <==> UpdateSpec(graph, old(State(rows, branches)), lines, resolve, time).Ok?
      ensures r.Ok? ==> UpdateSpec(graph, old(State(rows, branches)), lines, resolve, time) == Ok(State(rows, branches))
      ensures r.Err? ==> UpdateSpec(graph, old(State(rows, branches)), lines, resolve, time) == Err(r.error)
      ensures r.Err? ==> rows == old(rows) && branches == old(branches)
    {
      var parsed := DoubleGit.ParseFetchOutput(lines);
      if parsed.Err? {
        return Err(parsed.error);
      }
      var o := parsed.value;
      var closed := CloseRows(rows, Closes(o), time);
      var added := OpenRows(closed, Targets(o), resolve, time);
      if added.Err? {
        return Err(added.error);
      }
      var shas := added.value.1;
      MakeKeepers(shas);
      PruneRefs(Marks(Targets(o), shas));
      rows := added.value.0;
      UpdateKeepsAlive(graph, old(State(rows, branches)), lines, resolve, time);
      return Ok(());
    }
  }
}
