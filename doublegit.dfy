/** The Python archiver's fetch parser: the same line grammar and category
    rules as the Rust parser, but an elif chain on the operation character
    instead of an operation table, and three lists in line order instead
    of three sets. */
module DoubleGit {
  import opened Wrappers
  import opened Refs
  import opened FetchLine
  import opened Git

  /** What the Python parser returns: new, changed and removed refs, each
      in the order of the lines that reported them, duplicates kept. */
  datatype FetchLists = FetchLists(created: seq<Ref>, changed: seq<Ref>, removed: seq<Ref>)

  const NoLists := FetchLists([], [], [])

  /** The elif chain on the operation character of a matched line. */
  function ChainEffect(op: char, to: string): (e: Effect)
    ensures op == '!' ==> e == Fail(Rejected(to))
    ensures op !in OpChars ==> e == Fail(Unexpected)
    ensures op == 't' ==> e == Record(ChangedRefs, Ref(Origin, to, true))
    ensures e.Fail? ==> e == Fail(Rejected(to)) || e == Fail(BadRemoteRef(to)) || e == Fail(Unexpected)
    ensures e.Record? ==> RefName(e.ref) == to && e.ref.remote == Origin
    ensures e.Record? ==> e.cat == (if op == '*' then NewRefs else if op == '-' then RemovedRefs else ChangedRefs)
  {
    if op == '*' then TagOrBranchEffect(NewRefs, to)
    else if op == ' ' || op == '+' then BranchEffect(ChangedRefs, to)
    else if op == '-' then TagOrBranchEffect(RemovedRefs, to)
    else if op == 't' then Record(ChangedRefs, Ref(Origin, to, true))
    else if op == '!' then Fail(Rejected(to))
    else Fail(Unexpected)
  }

  /** On every character the grammar lets through, the elif chain does
      what the Rust operation table does. */
  lemma ChainAgrees(op: char, to: string)
    requires op in OpChars
    ensures ChainEffect(op, to) == StatusEffect([op], to)
  {
    OpCharOperation(op);
  }

  /** The chain falls through to its final `RuntimeError` branch exactly
      on the characters the grammar's operation class leaves out, so no
      matched line reaches it. */
  lemma ChainFallsThrough(op: char, to: string)
    ensures ChainEffect(op, to) == Fail(Unexpected) <==> op !in OpChars
  {
  }

  /** The effect of one line in the Python parser. */
  function PyLineEffect(line: Line): (e: Effect)
    ensures line.Undecodable? ==> e == Fail(NonUtf8)
    ensures line.Decoded? && Match(line.s).None? ==> e == Skip
  {
    match line
    case Undecodable => Fail(NonUtf8)
    case Decoded(s) =>
      match Match(s)
      case None => Skip
      case Some(f) => ChainEffect(f.op, f.to)
  }

  /** Line by line, the Python parser and the Rust parser agree on what a
      line does; in particular the Python parser never raises
      `RuntimeError`. */
  lemma PyLineAgrees(line: Line)
    ensures PyLineEffect(line) == LineEffect(line)
    ensures PyLineEffect(line) != Fail(Unexpected)
  {
    if line.Decoded? && Match(line.s).Some? {
      var f := Match(line.s).value;
      ChainAgrees(f.op, f.to);
    }
  }

  // ---- The three lists ----

  /** The list of one category. */
  function List(o: FetchLists, c: Category): seq<Ref> {
    match c
    case NewRefs => o.created
    case ChangedRefs => o.changed
    case RemovedRefs => o.removed
  }

  /** Appends a ref to one list. */
  function Append(o: FetchLists, c: Category, r: Ref): (o': FetchLists)
    ensures List(o', c) == List(o, c) + [r]
    ensures forall d :: d != c ==> List(o', d) == List(o, d)
  {
    match c
    case NewRefs => o.(created := o.created + [r])
    case ChangedRefs => o.(changed := o.changed + [r])
    case RemovedRefs => o.(removed := o.removed + [r])
  }

  /** The lists after one more line; the first exception ends the parse. */
  function PyStep(acc: Result<FetchLists, Error>, e: Effect): Result<FetchLists, Error> {
    if acc.Err? then acc
    else
      match e
      case Skip => acc
      case Record(c, r) => Ok(Append(acc.value, c, r))
      case Fail(err) => Err(err)
  }

  /** The lists built from a sequence of line effects, first to last. */
  function PyReport(es: seq<Effect>): Result<FetchLists, Error> {
    if es == [] then Ok(NoLists)
    else PyStep(PyReport(es[..|es| - 1]), es[|es| - 1])
  }

  /** The result of the Python parser on the lines of git-fetch's output. */
  function PySpec(lines: seq<Line>): Result<FetchLists, Error> {
    PyReport(Effects(lines))
  }

  lemma PySnoc(lines: seq<Line>, i: nat)
    requires i < |lines|
    ensures PySpec(lines[..i + 1]) == PyStep(PySpec(lines[..i]), LineEffect(lines[i]))
  {
    assert lines[..i + 1] == lines[..i] + [lines[i]];
    EffectsConcat(lines[..i], [lines[i]]);
    var es := Effects(lines[..i + 1]);
    assert es[..|es| - 1] == Effects(lines[..i]);
  }

  lemma {:induction false} PyReportSticks(es: seq<Effect>, n: nat)
    requires n <= |es| && PyReport(es[..n]).Err?
    ensures PyReport(es) == PyReport(es[..n])
    decreases |es| - n
  {
    if n < |es| {
      assert es[..n + 1][..n] == es[..n];
      PyReportSticks(es, n + 1);
    } else {
      assert es[..n] == es;
    }
  }

  lemma PyFailureSticks(lines: seq<Line>, n: nat)
    requires n <= |lines| && PySpec(lines[..n]).Err?
    ensures PySpec(lines) == PySpec(lines[..n])
  {
    assert lines == lines[..n] + lines[n..];
    EffectsConcat(lines[..n], lines[n..]);
    var es := Effects(lines);
    assert es[..n] == Effects(lines[..n]);
    PyReportSticks(es, n);
  }

  /** The Python fetch parser: one pass over the lines, appending to three
      lists, raising at the first error. */
  method ParseFetchOutput(lines: seq<Line>) returns (r: Result<FetchLists, Error>)
    ensures r == PySpec(lines)
  {
    var created: seq<Ref> := [];
    var changed: seq<Ref> := [];
    var removed: seq<Ref> := [];
    var i := 0;
    while i < |lines|
      invariant 0 <= i <= |lines|
      invariant PySpec(lines[..i]) == Ok(FetchLists(created, changed, removed))
    {
      PySnoc(lines, i);
      var next := AppendLine(lines[i], FetchLists(created, changed, removed));
      if next.Err? {
        PyFailureSticks(lines, i + 1);
        return next;
      }
      created, changed, removed := next.value.created, next.value.changed, next.value.removed;
      i := i + 1;
    }
    assert lines[..i] == lines;
    r := Ok(FetchLists(created, changed, removed));
  }

  /** The body of the Python loop for one line. */
  method AppendLine(line: Line, lists: FetchLists) returns (r: Result<FetchLists, Error>)
    ensures r == PyStep(Ok(lists), LineEffect(line))
  {
    if line.Undecodable? {
      return Err(NonUtf8);
    }
    var m := Match(line.s);
    if m.None? {
      return Ok(lists);
    }
    var op, to := m.value.op, m.value.to;
    PyLineAgrees(line);
    var created, changed, removed := lists.created, lists.changed, lists.removed;
    if op == '*' {
      if '/' !in to {
        created := created + [Ref(Origin, to, true)];
      } else {
        var ref := ParseRemoteRef(to, Origin);
        if ref.Err? {
          return Err(ref.error);
        }
        created := created + [ref.value];
      }
    } else if op == ' ' || op == '+' {
      var ref := ParseRemoteRef(to, Origin);
      if ref.Err? {
        return Err(ref.error);
      }
      changed := changed + [ref.value];
    } else if op == '-' {
      if '/' !in to {
        removed := removed + [Ref(Origin, to, true)];
      } else {
        var ref := ParseRemoteRef(to, Origin);
        if ref.Err? {
          return Err(ref.error);
        }
        removed := removed + [ref.value];
      }
    } else if op == 't' {
      changed := changed + [Ref(Origin, to, true)];
    } else if op == '!' {
      return Err(Rejected(to));
    } else {
      return Err(Unexpected);
    }
    r := Ok(FetchLists(created, changed, removed));
  }

  // ---- Lists against sets ----

  /** The refs in a list. */
  function Elements(s: seq<Ref>): (e: set<Ref>)
    ensures forall r :: r in e <==> r in s
  {
    set r | r in s
  }

  /** The three lists seen as the Rust parser's three sets. */
  function AsSets(r: Result<FetchLists, Error>): Result<FetchOutput, Error> {
    match r
    case Err(e) => Err(e)
    case Ok(o) => Ok(FetchOutput(Elements(o.created), Elements(o.changed), Elements(o.removed)))
  }

  lemma StepAsSets(acc: Result<FetchLists, Error>, e: Effect)
    ensures AsSets(PyStep(acc, e)) == Step(AsSets(acc), e)
  {
    if acc.Ok? && e.Record? {
      var o := acc.value;
      var c, r := e.cat, e.ref;
      assert Elements(List(o, c) + [r]) == Elements(List(o, c)) + {r};
      var x := AsSets(PyStep(acc, e)).value;
      var y := Step(AsSets(acc), e).value;
      assert forall d :: Collection(x, d) == Elements(List(Append(o, c, r), d));
      assert forall d :: Collection(y, d) == Collection(x, d);
    }
  }

  /** The Python parser fails exactly when the Rust parser fails, with the
      same error, and otherwise its lists hold exactly the refs of the
      Rust parser's sets. */
  lemma {:induction false} PyReportAsSets(es: seq<Effect>)
    ensures AsSets(PyReport(es)) == Report(es)
  {
    if es == [] {
      assert Elements([]) == {};
    } else {
      PyReportAsSets(es[..|es| - 1]);
      StepAsSets(PyReport(es[..|es| - 1]), es[|es| - 1]);
    }
  }

  lemma PySpecAsSets(lines: seq<Line>)
    ensures PySpec(lines).Ok? <==> FetchSpec(lines).Ok?
    ensures PySpec(lines).Err? ==> PySpec(lines).error == FetchSpec(lines).error
    ensures PySpec(lines).Ok? ==>
              var o, s := PySpec(lines).value, FetchSpec(lines).value;
              (forall r :: r in o.created <==> r in s.created)
              && (forall r :: r in o.changed <==> r in s.changed)
              && (forall r :: r in o.removed <==> r in s.removed)
  {
    PyReportAsSets(Effects(lines));
  }

  // ---- Order ----

  /** The lists of two parts joined: the first part's error, else the
      second's, else the lists of both in order. */
  function JoinLists(x: Result<FetchLists, Error>, y: Result<FetchLists, Error>): (j: Result<FetchLists, Error>)
    ensures x.Ok? && y.Ok? ==> j.Ok? && forall c :: List(j.value, c) == List(x.value, c) + List(y.value, c)
    ensures x.Err? ==> j == x
    ensures x.Ok? && y.Err? ==> j == y
  {
    if x.Err? then x
    else if y.Err? then y
    else Ok(FetchLists(x.value.created + y.value.created, x.value.changed + y.value.changed,
                       x.value.removed + y.value.removed))
  }

  lemma JoinListsStep(x: Result<FetchLists, Error>, y: Result<FetchLists, Error>, e: Effect)
    ensures PyStep(JoinLists(x, y), e) == JoinLists(x, PyStep(y, e))
  {
    if x.Ok? && y.Ok? && e.Record? {
      var o := Append(JoinLists(x, y).value, e.cat, e.ref);
      var o' := JoinLists(x, Ok(Append(y.value, e.cat, e.ref))).value;
      assert forall d :: List(o, d) == List(o', d);
    }
  }

  /** Parsing a concatenation appends the second part's lists to the
      first part's: the lists keep the order of the lines. */
  lemma {:induction false} PyReportConcat(a: seq<Effect>, b: seq<Effect>)
    ensures PyReport(a + b) == JoinLists(PyReport(a), PyReport(b))
  {
    if b == [] {
      assert a + b == a;
      if PyReport(a).Ok? {
        var o := PyReport(a).value;
        assert o.created + [] == o.created && o.changed + [] == o.changed && o.removed + [] == o.removed;
      }
    } else {
      var init := b[..|b| - 1];
      assert (a + b)[..|a + b| - 1] == a + init;
      assert (a + b)[|a + b| - 1] == b[|b| - 1];
      PyReportConcat(a, init);
      JoinListsStep(PyReport(a), PyReport(init), b[|b| - 1]);
    }
  }

  lemma PySpecConcat(a: seq<Line>, b: seq<Line>)
    ensures PySpec(a + b) == JoinLists(PySpec(a), PySpec(b))
  {
    EffectsConcat(a, b);
    PyReportConcat(Effects(a), Effects(b));
  }

  /** A line reported twice appears twice in its list, where the Rust set
      holds it once. */
  lemma RepeatedLine(l: Line, c: Category, r: Ref)
    requires LineEffect(l) == Record(c, r)
    ensures PySpec([l, l]).Ok? && List(PySpec([l, l]).value, c) == [r, r]
    ensures FetchSpec([l, l]).Ok? && Collection(FetchSpec([l, l]).value, c) == {r}
  {
    var es := Effects([l, l]);
    assert es == [Record(c, r), Record(c, r)];
    RepeatedRecord(c, r);
  }

  lemma RepeatedRecord(c: Category, r: Ref)
    ensures PyReport([Record(c, r), Record(c, r)]).Ok?
    ensures List(PyReport([Record(c, r), Record(c, r)]).value, c) == [r, r]
    ensures Report([Record(c, r), Record(c, r)]).Ok?
    ensures Collection(Report([Record(c, r), Record(c, r)]).value, c) == {r}
  {
    var es := [Record(c, r), Record(c, r)];
    assert es[..1][..0] == [] && es[..1][0] == es[0];
    assert es[..|es| - 1] == es[..1];
    assert PyReport(es[..1]) == Ok(Append(NoLists, c, r));
    assert Report(es[..1]) == Ok(Insert(NoRefs, c, r));
    assert List(NoLists, c) + [r] == [r] && Collection(NoRefs, c) + {r} == {r};
  }

  // ---- The unit test ----

  lemma PyListsOfRecords(ra: Ref, rb: Ref, rc: Ref)
    ensures PyReport([Record(NewRefs, ra), Record(ChangedRefs, rb), Record(RemovedRefs, rc)])
            == Ok(FetchLists([ra], [rb], [rc]))
  {
    var es := [Record(NewRefs, ra), Record(ChangedRefs, rb), Record(RemovedRefs, rc)];
    var none: seq<Ref> := [];
    assert none + [ra] == [ra] && none + [rb] == [rb] && none + [rc] == [rc];
    assert es[..1][..0] == [] && es[..1][0] == es[0];
    assert PyReport(es[..1]) == Ok(FetchLists([ra], [], []));
    assert es[..2][..1] == es[..1] && es[..2][1] == es[1];
    assert PyReport(es[..2]) == Ok(FetchLists([ra], [rb], []));
    assert es[..2] == es[..|es| - 1];
  }

  lemma {:induction false} PyReportOfSkips(es: seq<Effect>)
    requires forall i :: 0 <= i < |es| ==> es[i] == Skip
    ensures PyReport(es) == Ok(NoLists)
  {
    if es != [] {
      var init := es[..|es| - 1];
      assert forall i :: 0 <= i < |init| ==> init[i] == es[i];
      PyReportOfSkips(init);
    }
  }

  /** Lines that are not status lines leave the lists empty. */
  lemma PyUnindented(lines: seq<Line>)
    requires Unindented(lines)
    ensures PySpec(lines) == Ok(NoLists)
  {
    forall i | 0 <= i < |lines| ensures lines[i].Decoded? && Match(lines[i].s).None? {
      NotStatusLine(lines[i].s);
    }
    PyReportOfSkips(Effects(lines));
  }

  /** Progress messages before the status lines change nothing. */
  lemma PyAmidProgress(progress: seq<Line>, status: seq<Line>, o: FetchLists)
    requires Unindented(progress) && PySpec(status) == Ok(o)
    ensures PySpec(progress + status) == Ok(o)
  {
    PyUnindented(progress);
    PySpecConcat(progress, status);
    assert [] + o.created == o.created && [] + o.changed == o.changed && [] + o.removed == o.removed;
  }

  /** Three lines that record one new, one changed and one removed ref. */
  lemma PyThreeRecords(a: Line, b: Line, c: Line, ra: Ref, rb: Ref, rc: Ref)
    requires LineEffect(a) == Record(NewRefs, ra)
    requires LineEffect(b) == Record(ChangedRefs, rb)
    requires LineEffect(c) == Record(RemovedRefs, rc)
    ensures PySpec([a, b, c]) == Ok(FetchLists([ra], [rb], [rc]))
  {
    var es := Effects([a, b, c]);
    assert es == [Record(NewRefs, ra), Record(ChangedRefs, rb), Record(RemovedRefs, rc)];
    PyListsOfRecords(ra, rb, rc);
  }

  /** The Python unit test's sample: progress messages, then three status
      lines, give one new, one changed and one removed branch of `origin`,
      each in a one-element list (the lines come from `splitlines`, so there
      is no empty piece after the final newline). */
  lemma PySampleReport(progress: seq<Line>)
    requires Unindented(progress)
    ensures PySpec(progress + [Decoded(SampleNewBranch), Decoded(SampleFastForward), Decoded(SampleDeleted)])
            == Ok(FetchLists([Ref(Origin, "master", false)], [Ref(Origin, "devel", false)],
                             [Ref(Origin, "old", false)]))
  {
    var status := [Decoded(SampleNewBranch), Decoded(SampleFastForward), Decoded(SampleDeleted)];
    var ra, rb, rc := Ref(Origin, "master", false), Ref(Origin, "devel", false), Ref(Origin, "old", false);
    SampleNewBranchEffect();
    SampleFastForwardEffect();
    SampleDeletedEffect();
    PyThreeRecords(status[0], status[1], status[2], ra, rb, rc);
    PyAmidProgress(progress, status, FetchLists([ra], [rb], [rc]));
  }
}
