/** Keeper branches: the archive keeps every recorded commit alive by
    pointing a branch `keep-<sha>` at it, and prunes keepers that other
    branches already keep alive. Commits form an abstract ancestry graph;
    branches are a map from branch name to commit. */
module Keepers {
  import opened Wrappers
  import opened Refs
  import opened RefsTable

  /** The objects of a repository as far as keeping them alive goes:
      `(a, b)` is in `anc` when commit `a` is a proper ancestor of commit
      `b`, and `peel` maps each annotated-tag object to the commit it
      names. */
  datatype Graph = Graph(anc: set<(Sha, Sha)>, peel: map<Sha, Sha>)

  /** `s` is the hash of a commit, not of an annotated-tag object. */
  predicate IsCommit(g: Graph, s: Sha) {
    s !in g.peel
  }

  /** Ancestry relates commits only, no commit is its own proper ancestor,
      ancestry is transitive, and every tag object names a commit. */
  predicate ValidGraph(g: Graph) {
    (forall p :: p in g.anc ==> p.0 != p.1 && IsCommit(g, p.0) && IsCommit(g, p.1))
    && (forall p, q :: p in g.anc && q in g.anc && p.1 == q.0 ==> (p.0, q.1) in g.anc)
    && (forall t :: t in g.peel ==> IsCommit(g, g.peel[t]))
  }

  /** The commit git takes where a command needs one (`s^{commit}`): the
      commit an annotated tag names, or the commit `s` itself. */
  function Peel(g: Graph, s: Sha): (c: Sha)
    ensures ValidGraph(g) ==> IsCommit(g, c)
    ensures IsCommit(g, s) ==> c == s
  {
    if s in g.peel then g.peel[s] else s
  }

  /** `a` is `b` or one of its ancestors: `b` keeps `a` alive. */
  predicate IsAncestor(g: Graph, a: Sha, b: Sha) {
    a == b || (a, b) in g.anc
  }

  lemma AncestorOrder(g: Graph, a: Sha, b: Sha, c: Sha)
    requires ValidGraph(g)
    ensures IsAncestor(g, a, a)
    ensures IsAncestor(g, a, b) && IsAncestor(g, b, c) ==> IsAncestor(g, a, c)
    ensures IsAncestor(g, a, b) && IsAncestor(g, b, a) ==> a == b
  {
  }

  /** The name of the keeper of a hash. */
  function KeepName(s: Sha): (n: string)
    ensures |n| == 5 + |s| && n[..5] == "keep-" && n[5..] == s
  {
    "keep-" + s
  }

  lemma KeepNameInjective(a: Sha, b: Sha)
    ensures KeepName(a) == KeepName(b) ==> a == b
  {
    if KeepName(a) == KeepName(b) {
      assert a == KeepName(a)[5..];
    }
  }

  /** A branch name of the form `keep-<s>`. */
  predicate IsKeeperName(b: string) {
    |b| >= 5 && b[..5] == "keep-"
  }

  /** Every branch of the archive is a keeper: it is called `keep-<s>` and
      points at the commit `s` stands for. */
  predicate KeepersTrue(g: Graph, br: map<string, Sha>) {
    forall b :: b in br ==> IsKeeperName(b) && br[b] == Peel(g, b[5..])
  }

  /** The keeper of `s`, when there is one, points at the commit `s`
      stands for. */
  lemma KeeperTip(g: Graph, br: map<string, Sha>, s: Sha)
    requires KeepersTrue(g, br) && KeepName(s) in br
    ensures br[KeepName(s)] == Peel(g, s)
  {
    assert KeepName(s)[5..] == s;
  }

  /** Some branch keeps `c` alive. */
  predicate Covered(g: Graph, br: map<string, Sha>, c: Sha) {
    exists b :: b in br && IsAncestor(g, c, br[b])
  }

  /** Everything `br` keeps alive, `br'` still keeps alive. */
  ghost predicate KeepsCovered(g: Graph, br: map<string, Sha>, br': map<string, Sha>) {
    forall c :: Covered(g, br, c) ==> Covered(g, br', c)
  }

  /** Branches can only point at commits, so no keeper ever keeps an
      annotated-tag object alive. */
  lemma TagObjectUnkept(g: Graph, br: map<string, Sha>, t: Sha)
    requires ValidGraph(g) && KeepersTrue(g, br) && !IsCommit(g, t)
    ensures !Covered(g, br, t)
  {
    forall b | b in br ensures !IsAncestor(g, t, br[b]) {
      assert IsCommit(g, Peel(g, b[5..]));
    }
  }

  /** `git branch --merged s`: the branches whose tip is an ancestor of the
      commit `s` stands for. */
  function Included(g: Graph, br: map<string, Sha>, s: Sha): (inc: set<string>)
    ensures forall b :: b in inc <==> b in br && IsAncestor(g, br[b], Peel(g, s))
  {
    set b | b in br && IsAncestor(g, br[b], Peel(g, s))
  }

  /** `git branch --contains s`: the branches that keep the commit `s`
      stands for alive. */
  function Including(g: Graph, br: map<string, Sha>, s: Sha): (inc: set<string>)
    ensures forall b :: b in inc <==> b in br && IsAncestor(g, Peel(g, s), br[b])
  {
    set b | b in br && IsAncestor(g, Peel(g, s), br[b])
  }

  /** `git branch -D name`, which fails when the branch does not exist. */
  function DeleteBranch(br: map<string, Sha>, name: string): (r: Result<map<string, Sha>, Error>)
    ensures r.Err? <==> name !in br
    ensures r.Err? ==> r.error == MissingBranch(name)
    ensures r.Ok? ==> r.value.Keys == br.Keys - {name} && forall b :: b in r.value ==> r.value[b] == br[b]
  {
    if name !in br then Err(MissingBranch(name)) else Ok(br - {name})
  }

  // ---- Creating keepers ----

  /** `git branch -f keep-<s> s` for every hash, first to last; git points
      the branch at the commit `s` stands for. The loop only adds branches,
      and leaves every branch not named `keep-…` as it was. */
  function CreateKeepers(g: Graph, br: map<string, Sha>, shas: seq<Sha>): (r: map<string, Sha>)
    ensures br.Keys <= r.Keys
    ensures forall b :: b in r && !IsKeeperName(b) ==> b in br && r[b] == br[b]
  {
    if shas == [] then br
    else
      var s := shas[|shas| - 1];
      CreateKeepers(g, br, shas[..|shas| - 1])[KeepName(s) := Peel(g, s)]
  }

  /** The keeper loop keeps alive every commit that was alive, and every
      branch is still a keeper. */
  lemma {:induction false} CreateKeepersSafe(g: Graph, br: map<string, Sha>, shas: seq<Sha>)
    requires KeepersTrue(g, br)
    ensures KeepersTrue(g, CreateKeepers(g, br, shas)) && KeepsCovered(g, br, CreateKeepers(g, br, shas))
  {
    if shas != [] {
      var s := shas[|shas| - 1];
      CreateKeepersSafe(g, br, shas[..|shas| - 1]);
      var prev := CreateKeepers(g, br, shas[..|shas| - 1]);
      var k := prev[KeepName(s) := Peel(g, s)];
      assert KeepName(s)[5..] == s;
      forall c | Covered(g, prev, c) ensures Covered(g, k, c) {
        var b :| b in prev && IsAncestor(g, c, prev[b]);
        if b == KeepName(s) {
          KeeperTip(g, prev, s);
        }
        assert b in k && IsAncestor(g, c, k[b]);
      }
    }
  }

  /** After the keeper loop every hash has its keeper, which points at the
      commit the hash stands for. */
  lemma {:induction false} CreateKeepersKeep(g: Graph, br: map<string, Sha>, shas: seq<Sha>)
    ensures forall i :: 0 <= i < |shas| ==>
              KeepName(shas[i]) in CreateKeepers(g, br, shas)
              && CreateKeepers(g, br, shas)[KeepName(shas[i])] == Peel(g, shas[i])
  {
    if shas != [] {
      var init := shas[..|shas| - 1];
      var s := shas[|shas| - 1];
      CreateKeepersKeep(g, br, init);
      var k := CreateKeepers(g, br, shas);
      assert forall i :: 0 <= i < |init| ==> init[i] == shas[i];
      forall i | 0 <= i < |shas| ensures KeepName(shas[i]) in k && k[KeepName(shas[i])] == Peel(g, shas[i]) {
        if i < |init| && KeepName(shas[i]) == KeepName(s) {
          KeepNameInjective(shas[i], s);
        }
      }
    }
  }

  /** The keeper loop adds the keepers of the hashes and no other branch. */
  lemma {:induction false} CreateKeepersAdds(g: Graph, br: map<string, Sha>, shas: seq<Sha>)
    ensures CreateKeepers(g, br, shas).Keys == br.Keys + set i | 0 <= i < |shas| :: KeepName(shas[i])
  {
    if shas != [] {
      var init := shas[..|shas| - 1];
      var s := shas[|shas| - 1];
      CreateKeepersAdds(g, br, init);
      var added := set i | 0 <= i < |shas| :: KeepName(shas[i]);
      var added' := set i | 0 <= i < |init| :: KeepName(init[i]);
      forall n | n in added ensures n in added' + {KeepName(s)} {
        var i :| 0 <= i < |shas| && n == KeepName(shas[i]);
        if i < |init| { assert n == KeepName(init[i]); }
      }
      forall n | n in added' ensures n in added {
        var i :| 0 <= i < |init| && n == KeepName(init[i]);
        assert n == KeepName(shas[i]);
      }
      assert KeepName(s) == KeepName(shas[|shas| - 1]);
    }
  }

  // ---- Pruning ----

  /** The first half of a prune step for `s`: every branch `s` includes
      is deleted, except the one named `keep-<s>`. */
  function PruneIncluded(g: Graph, br: map<string, Sha>, s: Sha): (r: map<string, Sha>)
    ensures r.Keys == br.Keys - (Included(g, br, s) - {KeepName(s)})
    ensures forall b :: b in r ==> r[b] == br[b]
  {
    map b | b in br && (b == KeepName(s) || !IsAncestor(g, br[b], Peel(g, s))) :: br[b]
  }

  /** The prune step as the archiver writes it: it deletes the keeper
      whenever more than one branch includes the commit, without checking
      that the keeper is still there, which fails when it is not. */
  function PruneStepAsWritten(g: Graph, br: map<string, Sha>, s: Sha, tag: bool): (r: Result<map<string, Sha>, Error>)
    ensures r.Err? <==> !tag && KeepName(s) !in PruneIncluded(g, br, s)
                        && |Including(g, PruneIncluded(g, br, s), s)| > 1
    ensures r.Err? ==> r.error == MissingBranch(KeepName(s))
    ensures r.Ok? ==> r.value.Keys <= br.Keys && forall b :: b in r.value ==> r.value[b] == br[b]
    ensures r.Ok? ==> forall b :: b in br && b !in Included(g, br, s) && b != KeepName(s) ==> b in r.value
    ensures KeepName(s) in br ==>
              r.Ok? && (KeepName(s) !in r.value <==>
                          !tag && |Including(g, PruneIncluded(g, br, s), s)| > 1)
  {
    var br1 := PruneIncluded(g, br, s);
    if !tag && |Including(g, br1, s)| > 1 then DeleteBranch(br1, KeepName(s)) else Ok(br1)
  }

  /** The archiver's prune loop: it only deletes branches, and it can fail
      only on deleting a keeper that is gone. */
  function PruneAllAsWritten(g: Graph, br: map<string, Sha>, targets: seq<(Sha, bool)>): (r: Result<map<string, Sha>, Error>)
    ensures r.Ok? ==> r.value.Keys <= br.Keys && forall b :: b in r.value ==> r.value[b] == br[b]
    ensures r.Err? ==> r.error.MissingBranch? && IsKeeperName(r.error.name)
  {
    if targets == [] then Ok(br)
    else
      var t := targets[|targets| - 1];
      match PruneAllAsWritten(g, br, targets[..|targets| - 1])
      case Err(e) => Err(e)
      case Ok(prev) => PruneStepAsWritten(g, prev, t.0, t.1)
  }

  /** A prune step with the missing check added: when an earlier step has
      already deleted the keeper of `s`, the step does nothing; otherwise
      it does what the archiver's step does. */
  function PruneStep(g: Graph, br: map<string, Sha>, s: Sha, tag: bool): (r: map<string, Sha>)
    ensures r.Keys <= br.Keys && forall b :: b in r ==> r[b] == br[b]
    ensures forall b :: b in br && b !in Included(g, br, s) && b != KeepName(s) ==> b in r
    ensures KeepName(s) !in br ==> r == br
    ensures KeepName(s) in br ==> PruneStepAsWritten(g, br, s, tag) == Ok(r)
  {
    if KeepName(s) !in br then br
    else
      var br1 := PruneIncluded(g, br, s);
      if !tag && |Including(g, br1, s)| > 1 then br1 - {KeepName(s)} else br1
  }

  /** The prune loop over the resolved refs, first to last, with the
      corrected step. It only deletes branches. */
  function PruneAll(g: Graph, br: map<string, Sha>, targets: seq<(Sha, bool)>): (r: map<string, Sha>)
    ensures r.Keys <= br.Keys && forall b :: b in r ==> r[b] == br[b]
  {
    if targets == [] then br
    else
      var t := targets[|targets| - 1];
      PruneStep(g, PruneAll(g, br, targets[..|targets| - 1]), t.0, t.1)
  }

  /** A set with two members has one besides any given member. */
  lemma OtherMember(a: set<string>, x: string)
    requires x in a && |a| > 1
    ensures exists y :: y in a && y != x
  {
    var rest := a - {x};
    assert |rest| == |a| - 1;
  }

  /** The deletion loop of a step loses nothing while the keeper of `s` is
      there: that keeper survives, and it keeps alive whatever a deleted
      branch kept alive. */
  lemma PruneIncludedSafe(g: Graph, br: map<string, Sha>, s: Sha)
    requires ValidGraph(g) && KeepersTrue(g, br) && KeepName(s) in br
    ensures KeepersTrue(g, PruneIncluded(g, br, s))
    ensures KeepsCovered(g, br, PruneIncluded(g, br, s))
    ensures KeepName(s) in PruneIncluded(g, br, s)
  {
    var p := Peel(g, s);
    var k := KeepName(s);
    var r := PruneIncluded(g, br, s);
    KeeperTip(g, br, s);
    assert k in r;
    forall c | Covered(g, br, c) ensures Covered(g, r, c) {
      var b :| b in br && IsAncestor(g, c, br[b]);
      if b !in r {
        AncestorOrder(g, c, br[b], p);
        assert IsAncestor(g, c, r[k]);
      }
    }
  }

  /** A whole prune step loses nothing: the keeper it may delete is kept
      alive by another branch, and a step whose keeper is gone does
      nothing. */
  lemma PruneStepSafe(g: Graph, br: map<string, Sha>, s: Sha, tag: bool)
    requires ValidGraph(g) && KeepersTrue(g, br)
    ensures KeepersTrue(g, PruneStep(g, br, s, tag))
    ensures KeepsCovered(g, br, PruneStep(g, br, s, tag))
  {
    var k := KeepName(s);
    if k in br {
      PruneIncludedSafe(g, br, s);
      var br1 := PruneIncluded(g, br, s);
      if !tag && |Including(g, br1, s)| > 1 {
        var r := br1 - {k};
        OtherMember(Including(g, br1, s), k);
        var y :| y in Including(g, br1, s) && y != k;
        assert y in r;
        KeeperTip(g, br1, s);
        forall c | Covered(g, br1, c) ensures Covered(g, r, c) {
          var b :| b in br1 && IsAncestor(g, c, br1[b]);
          if b == k {
            AncestorOrder(g, c, Peel(g, s), br1[y]);
            assert IsAncestor(g, c, r[y]);
          } else {
            assert b in r;
          }
        }
      }
    }
  }

  /** The corrected prune loop keeps alive every commit that was alive. */
  lemma {:induction false} PruneAllSafe(g: Graph, br: map<string, Sha>, targets: seq<(Sha, bool)>)
    requires ValidGraph(g) && KeepersTrue(g, br)
    ensures KeepersTrue(g, PruneAll(g, br, targets))
    ensures KeepsCovered(g, br, PruneAll(g, br, targets))
  {
    if targets != [] {
      var init := targets[..|targets| - 1];
      var t := targets[|targets| - 1];
      PruneAllSafe(g, br, init);
      PruneStepSafe(g, PruneAll(g, br, init), t.0, t.1);
    }
  }

  /** A keeper is deleted by its own step only for a branch, and only when
      more than one branch includes the commit; a tag's keeper always
      survives its prune step. */
  lemma KeeperDeletedOnlyIfRedundant(g: Graph, br: map<string, Sha>, s: Sha, tag: bool)
    requires KeepersTrue(g, br) && KeepName(s) in br
    ensures KeepName(s) !in PruneStep(g, br, s, tag) <==>
              !tag && |Including(g, PruneIncluded(g, br, s), s)| > 1
  {
    KeeperTip(g, br, s);
  }

  /** Every branch is the keeper of a commit, not of a tag object. */
  predicate CommitKeepers(g: Graph, br: map<string, Sha>) {
    KeepersTrue(g, br) && forall b :: b in br ==> IsCommit(g, b[5..])
  }

  /** No branch left in `br` is at or below the tip of a branch of `br0`
      that is gone. */
  predicate NoneBelowGone(g: Graph, br0: map<string, Sha>, br: map<string, Sha>) {
    forall k, b :: k in br0 && k !in br && b in br ==> !IsAncestor(g, br[b], br0[k])
  }

  /** Where no annotated tag is involved and every step's keeper was
      created, one more archiver step that succeeds does what the
      corrected step does, and deletes no branch that something below it
      still needs. */
  lemma AsWrittenStepAgrees(g: Graph, br0: map<string, Sha>, br: map<string, Sha>, s: Sha, tag: bool)
    requires ValidGraph(g) && CommitKeepers(g, br0) && IsCommit(g, s) && KeepName(s) in br0
    requires br.Keys <= br0.Keys && forall b :: b in br ==> br[b] == br0[b]
    requires NoneBelowGone(g, br0, br)
    requires PruneStepAsWritten(g, br, s, tag).Ok?
    ensures PruneStepAsWritten(g, br, s, tag).value == PruneStep(g, br, s, tag)
    ensures NoneBelowGone(g, br0, PruneStep(g, br, s, tag))
  {
    var k := KeepName(s);
    assert k[5..] == s;
    if k in br {
      var br1 := PruneIncluded(g, br, s);
      var r := PruneStep(g, br, s, tag);
      forall x, b | x in br0 && x !in r && b in r ensures !IsAncestor(g, r[b], br0[x]) {
        if x in br && x !in br1 && IsAncestor(g, r[b], br0[x]) {
          AncestorOrder(g, r[b], br0[x], s);
          assert b == k;
          assert x[5..] == br0[x];
          AncestorOrder(g, s, br0[x], s);
        }
      }
    } else {
      assert Included(g, br, s) == {};
      assert PruneIncluded(g, br, s) == br;
    }
  }

  /** Where no annotated tag is involved and every step's keeper was
      created, the archiver's prune loop, whenever it succeeds, does what
      the corrected loop does: the missing check only changes runs that
      fail or that involve annotated tags. */
  lemma {:induction false} AsWrittenAgrees(g: Graph, br: map<string, Sha>, targets: seq<(Sha, bool)>)
    requires ValidGraph(g) && CommitKeepers(g, br)
    requires forall i :: 0 <= i < |targets| ==> IsCommit(g, targets[i].0) && KeepName(targets[i].0) in br
    requires PruneAllAsWritten(g, br, targets).Ok?
    ensures PruneAllAsWritten(g, br, targets).value == PruneAll(g, br, targets)
    ensures NoneBelowGone(g, br, PruneAll(g, br, targets))
  {
    if targets != [] {
      var init := targets[..|targets| - 1];
      var t := targets[|targets| - 1];
      assert forall i :: 0 <= i < |init| ==> init[i] == targets[i];
      AsWrittenAgrees(g, br, init);
      AsWrittenStepAgrees(g, br, PruneAll(g, br, init), t.0, t.1);
    }
  }

  // ---- The scenario of the Python unit test ----

  /** Commits one, two and three, where two and three were both made on top
      of one. */
  const Commits := Graph({("one", "two"), ("one", "three")}, map[])

  lemma CommitsValid()
    ensures ValidGraph(Commits)
  {
  }

  lemma KeeperNames()
    ensures KeepName("one") == "keep-one" && KeepName("two") == "keep-two" && KeepName("three") == "keep-three"
  {
  }

  const KeepOne := map["keep-one" := "one"]
  const KeepTwo := map["keep-two" := "two"]
  const KeepOneTwo := map["keep-one" := "one", "keep-two" := "two"]
  const KeepTwoThree := map["keep-two" := "two", "keep-three" := "three"]
  const KeepAll := map["keep-one" := "one", "keep-two" := "two", "keep-three" := "three"]

  /** One step of the prune loop on a single target. */
  lemma PruneOne(g: Graph, br: map<string, Sha>, t: (Sha, bool))
    ensures PruneAll(g, br, [t]) == PruneStep(g, br, t.0, t.1)
  {
    assert [t][..0] == [];
  }

  /** br1 moves from one to two: keep-one goes, two includes it. */
  lemma ScenarioMoved()
    ensures CreateKeepers(Commits, KeepOne, ["two"]) == KeepOneTwo
    ensures PruneAll(Commits, KeepOneTwo, [("two", false)]) == KeepTwo
  {
    KeeperNames();
    PruneOne(Commits, KeepOneTwo, ("two", false));
    assert Included(Commits, KeepOneTwo, "two") == {"keep-one", "keep-two"};
    assert PruneIncluded(Commits, KeepOneTwo, "two") == KeepTwo;
    assert Including(Commits, KeepTwo, "two") == {"keep-two"};
  }

  /** br1 is forced back to one: keep-one is created and goes again, since
      keep-two keeps one alive. */
  lemma ScenarioForced()
    ensures CreateKeepers(Commits, KeepTwo, ["one"]) == KeepOneTwo
    ensures PruneAll(Commits, KeepOneTwo, [("one", false)]) == KeepTwo
  {
    KeeperNames();
    PruneOne(Commits, KeepOneTwo, ("one", false));
    assert Included(Commits, KeepOneTwo, "one") == {"keep-one"};
    assert PruneIncluded(Commits, KeepOneTwo, "one") == KeepOneTwo;
    assert Including(Commits, KeepOneTwo, "one") == {"keep-one", "keep-two"};
    assert KeepOneTwo - {"keep-one"} == KeepTwo;
  }

  /** br2 is created at three: nothing keeps three alive but its keeper. */
  lemma ScenarioBranched()
    ensures CreateKeepers(Commits, KeepTwo, ["three"]) == KeepTwoThree
    ensures PruneAll(Commits, KeepTwoThree, [("three", false)]) == KeepTwoThree
  {
    KeeperNames();
    PruneOne(Commits, KeepTwoThree, ("three", false));
    assert Included(Commits, KeepTwoThree, "three") == {"keep-three"};
    assert PruneIncluded(Commits, KeepTwoThree, "three") == KeepTwoThree;
    assert Including(Commits, KeepTwoThree, "three") == {"keep-three"};
  }

  /** The first prune step for commit one deletes keep-one, which keep-two
      and keep-three make redundant. */
  lemma FirstDelete()
    ensures PruneStep(Commits, KeepAll, "one", false) == KeepTwoThree
    ensures PruneStepAsWritten(Commits, KeepAll, "one", false) == Ok(KeepTwoThree)
  {
    KeeperNames();
    assert Peel(Commits, "one") == "one";
    assert Included(Commits, KeepAll, "one") == {"keep-one"};
    assert PruneIncluded(Commits, KeepAll, "one") == KeepAll;
    assert Including(Commits, KeepAll, "one") == {"keep-one", "keep-two", "keep-three"};
    assert KeepAll - {"keep-one"} == KeepTwoThree;
  }

  /** A second prune step for commit one finds keep-one gone: as written it
      fails, corrected it does nothing. */
  lemma SecondDelete()
    ensures PruneStep(Commits, KeepTwoThree, "one", false) == KeepTwoThree
    ensures PruneStepAsWritten(Commits, KeepTwoThree, "one", false) == Err(MissingBranch("keep-one"))
  {
    KeeperNames();
    assert Peel(Commits, "one") == "one";
    assert Included(Commits, KeepTwoThree, "one") == {};
    assert PruneIncluded(Commits, KeepTwoThree, "one") == KeepTwoThree;
    assert Including(Commits, KeepTwoThree, "one") == {"keep-two", "keep-three"};
  }

  /** Two refs updated to the same commit one, which keep-two and keep-three
      already keep alive: the archiver's second prune step deletes keep-one
      again and fails, where the corrected loop leaves the two other
      keepers. */
  lemma DoubleDeleteFails()
    ensures CreateKeepers(Commits, KeepTwoThree, ["one", "one"]) == KeepAll
    ensures PruneAllAsWritten(Commits, KeepAll, [("one", false), ("one", false)]) == Err(MissingBranch("keep-one"))
    ensures PruneAll(Commits, KeepAll, [("one", false), ("one", false)]) == KeepTwoThree
  {
    KeeperNames();
    var t := ("one", false);
    assert CreateKeepers(Commits, KeepTwoThree, ["one"]) == KeepAll by {
      assert ["one"][..0] == [];
    }
    assert ["one", "one"][..1] == ["one"];
    assert [t, t][..1] == [t];
    FirstDelete();
    SecondDelete();
    PruneOne(Commits, KeepAll, t);
    PruneOneAsWritten(Commits, KeepAll, t);
  }

  /** The archiver's prune loop on a single target is one step. */
  lemma PruneOneAsWritten(g: Graph, br: map<string, Sha>, t: (Sha, bool))
    ensures PruneAllAsWritten(g, br, [t]) == PruneStepAsWritten(g, br, t.0, t.1)
  {
    assert [t][..0] == [];
  }

  // ---- A release: a branch and an annotated tag on the same commit ----

  /** Commits one, two and three as before, and an annotated-tag object
      `tag2` naming commit two. */
  const Tagged := Graph({("one", "two"), ("one", "three")}, map["tag2" := "two"])

  const KeepOneTwoTag := map["keep-one" := "one", "keep-two" := "two", "keep-tag2" := "two"]

  lemma TaggedValid()
    ensures ValidGraph(Tagged)
    ensures KeepersTrue(Tagged, KeepOne) && KeepersTrue(Tagged, KeepOneTwoTag)
  {
    assert "keep-one"[5..] == "one" && "keep-two"[5..] == "two" && "keep-tag2"[5..] == "tag2";
  }

  /** br1 fast-forwards from one to two and the annotated tag2 is created
      on two, in one fetch: the keeper loop adds `keep-two`, and `keep-tag2`,
      which git points at commit two. */
  lemma ReleaseKeepers()
    ensures CreateKeepers(Tagged, KeepOne, ["two", "tag2"]) == KeepOneTwoTag
  {
    KeeperNames();
    assert KeepName("tag2") == "keep-tag2";
    assert ["two", "tag2"][..1] == ["two"] && ["two"][..0] == [];
  }

  /** The step for two deletes `keep-one` and also `keep-tag2`, whose tip
      two is merged into two; `keep-two` stays, the only branch containing
      two. */
  lemma ReleaseStepTwo()
    ensures PruneStepAsWritten(Tagged, KeepOneTwoTag, "two", false) == Ok(KeepTwo)
    ensures PruneStep(Tagged, KeepOneTwoTag, "two", false) == KeepTwo
  {
    KeeperNames();
    assert Peel(Tagged, "two") == "two";
    assert ("one", "two") in Tagged.anc;
    assert Included(Tagged, KeepOneTwoTag, "two") == {"keep-one", "keep-two", "keep-tag2"};
    assert PruneIncluded(Tagged, KeepOneTwoTag, "two") == KeepTwo;
    assert Including(Tagged, KeepTwo, "two") == {"keep-two"};
  }

  /** As written, the step for tag2, whose keeper is gone, then deletes
      `keep-two`, whose tip is merged into the commit tag2 names. No keeper
      is left, so commits one and two, both recorded, are kept alive by no
      keeper. */
  lemma ReleaseLosesCommits()
    ensures PruneAllAsWritten(Tagged, KeepOneTwoTag, [("two", false), ("tag2", true)]) == Ok(map[])
    ensures !Covered(Tagged, map[], "one") && !Covered(Tagged, map[], "two")
  {
    KeeperNames();
    assert KeepName("tag2") == "keep-tag2";
    var t1, t2 := ("two", false), ("tag2", true);
    assert [t1, t2][..1] == [t1];
    PruneOneAsWritten(Tagged, KeepOneTwoTag, t1);
    ReleaseStepTwo();
    assert Included(Tagged, KeepTwo, "tag2") == {"keep-two"};
    assert PruneIncluded(Tagged, KeepTwo, "tag2") == map[];
  }

  /** Corrected, the step for tag2 finds its keeper gone and does nothing,
      so `keep-two` keeps one and two alive. */
  lemma ReleaseKeepsCommits()
    ensures PruneAll(Tagged, KeepOneTwoTag, [("two", false), ("tag2", true)]) == KeepTwo
    ensures Covered(Tagged, KeepTwo, "one") && Covered(Tagged, KeepTwo, "two")
  {
    var t1, t2 := ("two", false), ("tag2", true);
    assert [t1, t2][..1] == [t1];
    assert KeepName("tag2") == "keep-tag2";
    PruneOne(Tagged, KeepOneTwoTag, t1);
    ReleaseStepTwo();
    assert "keep-two" in KeepTwo && IsAncestor(Tagged, "one", KeepTwo["keep-two"]);
    assert IsAncestor(Tagged, "two", KeepTwo["keep-two"]);
  }

  // ---- The tag steps of the Python unit test ----

  /** Commits one, two and three, and the two successive annotated-tag
      objects of tag2: `tag2a` naming two, then `tag2b` naming one. */
  const Tags := Graph({("one", "two"), ("one", "three")}, map["tag2a" := "two", "tag2b" := "one"])

  const KeepAllTag2a := map["keep-one" := "one", "keep-two" := "two", "keep-three" := "three", "keep-tag2a" := "two"]
  const KeepThreeTag2a := map["keep-three" := "three", "keep-tag2a" := "two"]
  const KeepFour := map["keep-two" := "two", "keep-three" := "three", "keep-tag2a" := "two", "keep-tag2b" := "one"]

  lemma TagsValid()
    ensures ValidGraph(Tags)
  {
  }

  /** The light-weight tag1 is created on one: a tag's keeper stays even
      though keep-two and keep-three contain one. */
  lemma TagOneCreated()
    ensures PruneAll(Tags, KeepAll, [("one", true)]) == KeepAll
  {
    KeeperNames();
    PruneOne(Tags, KeepAll, ("one", true));
    assert Peel(Tags, "one") == "one";
    assert Included(Tags, KeepAll, "one") == {"keep-one"};
    assert PruneIncluded(Tags, KeepAll, "one") == KeepAll;
  }

  /** The annotated tag2 is created on two: its step deletes keep-one and
      keep-two, which are merged into two, and keeps `keep-tag2a`. */
  lemma TagTwoCreated()
    ensures PruneAll(Tags, KeepAllTag2a, [("tag2a", true)]) == KeepThreeTag2a
  {
    KeeperNames();
    assert KeepName("tag2a") == "keep-tag2a";
    PruneOne(Tags, KeepAllTag2a, ("tag2a", true));
    assert Peel(Tags, "tag2a") == "two";
    assert ("one", "two") in Tags.anc;
    assert Included(Tags, KeepAllTag2a, "tag2a") == {"keep-one", "keep-two", "keep-tag2a"};
    assert PruneIncluded(Tags, KeepAllTag2a, "tag2a") == KeepThreeTag2a;
  }

  /** tag1 moves to two and tag2 to a new object on one: the step for two
      deletes `keep-tag2a` and `keep-tag2b`, and the step for `tag2b`
      finds its keeper gone. Both loops leave keep-two and keep-three. */
  lemma TagsMovedStep()
    ensures PruneStep(Tags, KeepFour, "two", true) == KeepTwoThree
  {
    KeeperNames();
    assert Peel(Tags, "two") == "two";
    assert ("one", "two") in Tags.anc;
    assert Included(Tags, KeepFour, "two") == {"keep-two", "keep-tag2a", "keep-tag2b"};
    assert PruneIncluded(Tags, KeepFour, "two") == KeepTwoThree;
  }

  lemma TagsMoved()
    ensures PruneAll(Tags, KeepFour, [("two", true), ("tag2b", true)]) == KeepTwoThree
    ensures PruneAllAsWritten(Tags, KeepFour, [("two", true), ("tag2b", true)]) == Ok(KeepTwoThree)
  {
    KeeperNames();
    assert KeepName("tag2b") == "keep-tag2b";
    var t1, t2 := ("two", true), ("tag2b", true);
    assert [t1, t2][..1] == [t1];
    PruneOne(Tags, KeepFour, t1);
    PruneOneAsWritten(Tags, KeepFour, t1);
    TagsMovedStep();
    assert Peel(Tags, "tag2b") == "one";
    assert Included(Tags, KeepTwoThree, "tag2b") == {};
    assert PruneIncluded(Tags, KeepTwoThree, "tag2b") == KeepTwoThree;
  }
}
