/** Parsing of git's command output (the Rust side): the operation code of a
    fetch status line, the fetch report gathered into three sets of refs,
    and the one-branch-per-line listings of `git branch`. */
module Git {
  import opened Wrappers
  import opened Text
  import opened Lib
  import opened FetchLine
  import opened Refs

  /** One line of a command's output: text, or bytes that are not UTF-8. */
  datatype Line = Decoded(s: string) | Undecodable

  // ---- The operation code ----

  /** The operation of a one-character code; the code must be exactly one
      byte long in UTF-8. */
  function ParseOperation(chr: string): (r: Result<Operation, Error>)
    ensures r.Err? ==> r == Err(InvalidOperation)
    ensures r.Ok? ==> Utf8Length(chr) == 1 && OpByte(r.value) == chr[0] as int as byte
    ensures Utf8Length(chr) == 1 && chr[0] as int as byte in StatusBytes ==> r.Ok?
  {
    if Utf8Length(chr) != 1 then Err(InvalidOperation)
    else
      match TryFromByte(chr[0] as int as byte)
      case Ok(op) => Ok(op)
      case Err(_) => Err(InvalidOperation)
  }

  /** The unit-test cases: empty, two-byte and non-ASCII codes are refused,
      and `+` is a forced update. */
  lemma ParseOperationExamples()
    ensures ParseOperation("").Err? && ParseOperation("++").Err?
    ensures Utf8Length("é") == 2 && ParseOperation("é").Err?
    ensures ParseOperation("+") == Ok(Forced)
  {
  }

  /** On a single ASCII character the string parser and the byte
      conversion agree. */
  lemma ParseOperationAgrees(b: byte)
    requires b < 0x80
    ensures ParseOperation([b as int as char]).Ok? <==> TryFromByte(b).Ok?
    ensures ParseOperation([b as int as char]).Ok? ==>
            ParseOperation([b as int as char]).value == TryFromByte(b).value
  {
  }

  // ---- What one line contributes ----

  /** The three collections of the fetch report. */
  datatype Category = NewRefs | ChangedRefs | RemovedRefs

  /** What one line does to the report: nothing, one recorded ref, or a failure. */
  datatype Effect = Skip | Record(cat: Category, ref: Ref) | Fail(err: Error)

  /** A destination parsed as a branch of `origin`. */
  function BranchEffect(cat: Category, to: string): Effect {
    match ParseRemoteRef(to, Origin)
    case Ok(r) => Record(cat, r)
    case Err(e) => Fail(e)
  }

  /** A destination with no '/' is a tag; otherwise it is a branch of `origin`. */
  function TagOrBranchEffect(cat: Category, to: string): Effect {
    if '/' !in to then Record(cat, Ref(Origin, to, true)) else BranchEffect(cat, to)
  }

  /** The category table of the fetch parser. */
  function OpEffect(op: Operation, to: string): (e: Effect)
    ensures op == Reject ==> e == Fail(Rejected(to))
    ensures op == Noop ==> e == Skip
    ensures e.Fail? ==> e == Fail(Rejected(to)) || (e == Fail(BadRemoteRef(to)) && op != Tag)
    ensures e.Record? ==> RefName(e.ref) == to && e.ref.remote == Origin
    ensures e.Record? ==> (e.ref.tag <==> op == Tag || ((op == New || op == Pruned) && '/' !in to))
    ensures e.Record? ==> e.cat == (if op == New then NewRefs
                                    else if op == Pruned then RemovedRefs
                                    else ChangedRefs)
    ensures op == Tag ==> e == Record(ChangedRefs, Ref(Origin, to, true))
    ensures (op == New || op == Pruned) && '/' !in to ==>
              e == Record(if op == New then NewRefs else RemovedRefs, Ref(Origin, to, true))
    ensures op == FastForward || op == Forced || ((op == New || op == Pruned) && '/' in to) ==>
              (e.Fail? <==> ParseRemoteRef(to, Origin).Err?)
              && (e.Record? ==> e.ref == ParseRemoteRef(to, Origin).value)
              && (e.Fail? ==> e == Fail(BadRemoteRef(to)))
  {
    match op
    case New => TagOrBranchEffect(NewRefs, to)
    case FastForward => BranchEffect(ChangedRefs, to)
    case Forced => BranchEffect(ChangedRefs, to)
    case Pruned => TagOrBranchEffect(RemovedRefs, to)
    case Tag => Record(ChangedRefs, Ref(Origin, to, true))
    case Reject => Fail(Rejected(to))
    case Noop => Skip
  }

  /** Every character of the grammar's operation class converts, none of
      them is `=`, and `!` is the rejection. */
  lemma OpCharOperation(c: char)
    requires c in OpChars
    ensures ParseOperation([c]).Ok? && ParseOperation([c]).value != Noop
    ensures c == '!' ==> ParseOperation([c]) == Ok(Reject)
  {
    assert c == '+' || c == 't' || c == '*' || c == '!' || c == ' ' || c == '-';
  }

  /** A status line's operation code always converts, and is never `=`:
      the grammar's operation class does not contain it. */
  lemma MatchedOperation(s: string)
    requires Match(s).Some?
    ensures ParseOperation([Match(s).value.op]).Ok?
    ensures ParseOperation([Match(s).value.op]).value != Noop
  {
    OpCharOperation(Match(s).value.op);
  }

  /** The effect of a status line with operation code `op` and destination `to`. */
  function StatusEffect(op: string, to: string): Effect {
    match ParseOperation(op)
    case Err(e) => Fail(e)
    case Ok(o) => OpEffect(o, to)
  }

  /** The effect of one line of git-fetch's report. */
  function LineEffect(line: Line): (e: Effect)
    ensures line.Undecodable? ==> e == Fail(NonUtf8)
    ensures line.Decoded? && Match(line.s).None? ==> e == Skip
    ensures e != Fail(InvalidOperation) && e != Fail(Unexpected)
  {
    match line
    case Undecodable => Fail(NonUtf8)
    case Decoded(s) =>
      match Match(s)
      case None => Skip
      case Some(f) =>
        OpCharOperation(f.op);
        StatusEffect([f.op], f.to)
  }

  // ---- The report ----

  /** The refs that were created, updated and deleted. */
  datatype FetchOutput = FetchOutput(created: set<Ref>, changed: set<Ref>, removed: set<Ref>)

  const NoRefs := FetchOutput({}, {}, {})

  /** The collection of one category. */
  function Collection(o: FetchOutput, c: Category): set<Ref> {
    match c
    case NewRefs => o.created
    case ChangedRefs => o.changed
    case RemovedRefs => o.removed
  }

  /** Adds a ref to one collection. */
  function Insert(o: FetchOutput, c: Category, r: Ref): (o': FetchOutput)
    ensures Collection(o', c) == Collection(o, c) + {r}
    ensures forall d :: d != c ==> Collection(o', d) == Collection(o, d)
  {
    match c
    case NewRefs => o.(created := o.created + {r})
    case ChangedRefs => o.(changed := o.changed + {r})
    case RemovedRefs => o.(removed := o.removed + {r})
  }

  /** The report after one more line; the first failure sticks. */
  function Step(acc: Result<FetchOutput, Error>, e: Effect): Result<FetchOutput, Error> {
    if acc.Err? then acc
    else
      match e
      case Skip => acc
      case Record(c, r) => Ok(Insert(acc.value, c, r))
      case Fail(err) => Err(err)
  }

  /** The report built from a sequence of line effects, first to last. */
  function Report(es: seq<Effect>): (r: Result<FetchOutput, Error>)
    ensures r.Err? ==> Fail(r.error) in es
  {
    if es == [] then Ok(NoRefs)
    else
      var init := es[..|es| - 1];
      assert forall e :: e in init ==> e in es;
      Step(Report(init), es[|es| - 1])
  }

  /** The effects of the lines, in order. */
  function Effects(lines: seq<Line>): (es: seq<Effect>)
    ensures |es| == |lines| && forall i :: 0 <= i < |lines| ==> es[i] == LineEffect(lines[i])
  {
    if lines == [] then [] else [LineEffect(lines[0])] + Effects(lines[1..])
  }

  /** The report of git-fetch's output. */
  function FetchSpec(lines: seq<Line>): (r: Result<FetchOutput, Error>)
    ensures r.Err? ==> r.error != InvalidOperation && r.error != Unexpected
  {
    Report(Effects(lines))
  }

  lemma EffectsConcat(a: seq<Line>, b: seq<Line>)
    ensures Effects(a + b) == Effects(a) + Effects(b)
  {
    var x, y := Effects(a + b), Effects(a) + Effects(b);
    assert |x| == |y|;
    forall k | 0 <= k < |x| ensures x[k] == y[k] {
      if k < |a| { assert (a + b)[k] == a[k]; } else { assert (a + b)[k] == b[k - |a|]; }
    }
  }

  lemma FetchSnoc(lines: seq<Line>, i: nat)
    requires i < |lines|
    ensures FetchSpec(lines[..i + 1]) == Step(FetchSpec(lines[..i]), LineEffect(lines[i]))
  {
    assert lines[..i + 1] == lines[..i] + [lines[i]];
    EffectsConcat(lines[..i], [lines[i]]);
    var es := Effects(lines[..i + 1]);
    assert es[..|es| - 1] == Effects(lines[..i]);
  }

  /** The fetch parser: one pass over the lines, inserting into three sets,
      returning at the first error. */
  method ParseFetchOutput(lines: seq<Line>) returns (r: Result<FetchOutput, Error>)
    ensures r == FetchSpec(lines)
  {
    var created: set<Ref> := {};
    var changed: set<Ref> := {};
    var removed: set<Ref> := {};
    var i := 0;
    while i < |lines|
      invariant 0 <= i <= |lines|
      invariant FetchSpec(lines[..i]) == Ok(FetchOutput(created, changed, removed))
    {
      FetchSnoc(lines, i);
      var next := ApplyLine(lines[i], FetchOutput(created, changed, removed));
      if next.Err? {
        FailureSticks(lines, i + 1);
        return next;
      }
      created, changed, removed := next.value.created, next.value.changed, next.value.removed;
      i := i + 1;
    }
    assert lines[..i] == lines;
    r := Ok(FetchOutput(created, changed, removed));
  }

  /** The body of the fetch loop for one line: the sets after it, or the
      error it raises. */
  method ApplyLine(line: Line, sets: FetchOutput) returns (r: Result<FetchOutput, Error>)
    ensures r == Step(Ok(sets), LineEffect(line))
  {
    if line.Undecodable? {
      return Err(NonUtf8);
    }
    var m := Match(line.s);
    if m.None? {
      return Ok(sets);
    }
    assert LineEffect(line) == StatusEffect([m.value.op], m.value.to);
    r := ApplyStatus([m.value.op], m.value.to, sets);
  }

  /** The body of the fetch loop for one status line: the sets after it,
      or the error it raises. */
  method ApplyStatus(code: string, to: string, sets: FetchOutput) returns (r: Result<FetchOutput, Error>)
    ensures r == Step(Ok(sets), StatusEffect(code, to))
  {
    var op := ParseOperation(code);
    if op.Err? {
      return Err(op.error);
    }
    var created, changed, removed := sets.created, sets.changed, sets.removed;
    match op.value {
      case New =>
        if '/' !in to {
          created := created + {Ref(Origin, to, true)};
        } else {
          var ref := ParseRemoteRef(to, Origin);
          if ref.Err? {
            return Err(ref.error);
          }
          created := created + {ref.value};
        }
      case FastForward =>
        var ref := ParseRemoteRef(to, Origin);
        if ref.Err? {
          return Err(ref.error);
        }
        changed := changed + {ref.value};
      case Forced =>
        var ref := ParseRemoteRef(to, Origin);
        if ref.Err? {
          return Err(ref.error);
        }
        changed := changed + {ref.value};
      case Pruned =>
        if '/' !in to {
          removed := removed + {Ref(Origin, to, true)};
        } else {
          var ref := ParseRemoteRef(to, Origin);
          if ref.Err? {
            return Err(ref.error);
          }
          removed := removed + {ref.value};
        }
      case Tag =>
        changed := changed + {Ref(Origin, to, true)};
      case Reject =>
        return Err(Rejected(to));
      case Noop =>
    }
    r := Ok(FetchOutput(created, changed, removed));
  }

  // ---- Properties of the report, on effects ----

  lemma {:induction false} ReportSticks(es: seq<Effect>, n: nat)
    requires n <= |es| && Report(es[..n]).Err?
    ensures Report(es) == Report(es[..n])
    decreases |es| - n
  {
    if n < |es| {
      assert es[..n + 1][..n] == es[..n];
      ReportSticks(es, n + 1);
    } else {
      assert es[..n] == es;
    }
  }

  lemma {:induction false} ReportSucceeds(es: seq<Effect>)
    ensures Report(es).Ok? <==> forall i :: 0 <= i < |es| ==> !es[i].Fail?
  {
    if es != [] {
      var init := es[..|es| - 1];
      ReportSucceeds(init);
      assert forall i :: 0 <= i < |init| ==> init[i] == es[i];
    }
  }

  lemma {:induction false} ReportFailsAtFirst(es: seq<Effect>)
    requires Report(es).Err?
    ensures exists i :: 0 <= i < |es| && es[i] == Fail(Report(es).error)
                        && forall j :: 0 <= j < i ==> !es[j].Fail?
  {
    var init := es[..|es| - 1];
    assert forall i :: 0 <= i < |init| ==> init[i] == es[i];
    if Report(init).Err? {
      ReportFailsAtFirst(init);
      var i :| 0 <= i < |init| && init[i] == Fail(Report(init).error)
                && forall j :: 0 <= j < i ==> !init[j].Fail?;
      assert es[i] == Fail(Report(es).error);
    } else {
      ReportSucceeds(init);
      assert es[|es| - 1] == Fail(Report(es).error);
    }
  }

  lemma {:induction false} ReportRecords(es: seq<Effect>, c: Category, r: Ref)
    requires Report(es).Ok?
    ensures r in Collection(Report(es).value, c) <==>
            exists i :: 0 <= i < |es| && es[i] == Record(c, r)
  {
    if es != [] {
      var init := es[..|es| - 1];
      assert forall i :: 0 <= i < |init| ==> init[i] == es[i];
      ReportRecords(init, c, r);
      if r in Collection(Report(es).value, c) && es[|es| - 1] != Record(c, r) {
        var i :| 0 <= i < |init| && init[i] == Record(c, r);
        assert es[i] == Record(c, r);
      }
    }
  }

  /** Two reports combined: the first failure wins, otherwise the union. */
  function Join(x: Result<FetchOutput, Error>, y: Result<FetchOutput, Error>): Result<FetchOutput, Error> {
    if x.Err? then x
    else if y.Err? then y
    else Ok(FetchOutput(x.value.created + y.value.created, x.value.changed + y.value.changed,
                        x.value.removed + y.value.removed))
  }

  lemma {:induction false} ReportConcat(a: seq<Effect>, b: seq<Effect>)
    ensures Report(a + b) == Join(Report(a), Report(b))
  {
    if b == [] {
      assert a + b == a;
      JoinNothing(Report(a));
    } else {
      var init := b[..|b| - 1];
      assert (a + b)[..|a + b| - 1] == a + init;
      assert (a + b)[|a + b| - 1] == b[|b| - 1];
      ReportConcat(a, init);
      JoinStep(Report(a), Report(init), b[|b| - 1]);
    }
  }

  lemma JoinNothing(x: Result<FetchOutput, Error>)
    ensures Join(x, Ok(NoRefs)) == x
  {
    if x.Ok? {
      assert x.value.created + {} == x.value.created;
      assert x.value.changed + {} == x.value.changed;
      assert x.value.removed + {} == x.value.removed;
    }
  }

  lemma JoinStep(x: Result<FetchOutput, Error>, y: Result<FetchOutput, Error>, e: Effect)
    ensures Step(Join(x, y), e) == Join(x, Step(y, e))
  {
    if x.Ok? && y.Ok? && e.Record? {
      var o := Insert(Join(x, y).value, e.cat, e.ref);
      var o' := Join(x, Ok(Insert(y.value, e.cat, e.ref))).value;
      assert forall d :: Collection(o, d) == Collection(o', d);
    }
  }

  lemma ReportSkipIgnored(a: seq<Effect>, b: seq<Effect>)
    ensures Report(a + [Skip] + b) == Report(a + b)
  {
    ReportConcat(a, [Skip]);
    ReportConcat(a + [Skip], b);
    ReportConcat(a, b);
    assert [Skip][..0] == [];
    assert Report([Skip]) == Ok(NoRefs);
  }

  lemma ReportFailIsFinal(a: seq<Effect>, err: Error, b: seq<Effect>)
    requires Report(a).Ok?
    ensures Report(a + [Fail(err)] + b) == Err(err)
  {
    ReportConcat(a, [Fail(err)]);
    ReportConcat(a + [Fail(err)], b);
    assert [Fail(err)][..0] == [];
  }

  lemma {:induction false} ReportOfSkips(es: seq<Effect>)
    requires forall i :: 0 <= i < |es| ==> es[i] == Skip
    ensures Report(es) == Ok(NoRefs)
  {
    if es != [] {
      var init := es[..|es| - 1];
      assert forall i :: 0 <= i < |init| ==> init[i] == es[i];
      ReportOfSkips(init);
    }
  }

  // ---- Properties of the report, on lines ----

  /** Once a prefix of the lines fails, the whole report fails the same way. */
  lemma FailureSticks(lines: seq<Line>, n: nat)
    requires n <= |lines| && FetchSpec(lines[..n]).Err?
    ensures FetchSpec(lines) == FetchSpec(lines[..n])
  {
    assert lines == lines[..n] + lines[n..];
    EffectsConcat(lines[..n], lines[n..]);
    var es := Effects(lines);
    assert es[..n] == Effects(lines[..n]);
    ReportSticks(es, n);
  }

  /** The report succeeds exactly when no line fails. */
  lemma FetchSucceeds(lines: seq<Line>)
    ensures FetchSpec(lines).Ok? <==> forall i :: 0 <= i < |lines| ==> !LineEffect(lines[i]).Fail?
  {
    ReportSucceeds(Effects(lines));
  }

  /** A failed report carries the error of the first failing line. */
  lemma FetchFailsAtFirstError(lines: seq<Line>)
    requires FetchSpec(lines).Err?
    ensures exists i :: 0 <= i < |lines| && LineEffect(lines[i]) == Fail(FetchSpec(lines).error)
                        && forall j :: 0 <= j < i ==> !LineEffect(lines[j]).Fail?
  {
    var es := Effects(lines);
    ReportFailsAtFirst(es);
    var i :| 0 <= i < |es| && es[i] == Fail(Report(es).error) && forall j :: 0 <= j < i ==> !es[j].Fail?;
    assert LineEffect(lines[i]) == Fail(FetchSpec(lines).error);
  }

  /** A successful report holds exactly the refs that its lines record,
      each in the category that its line names. */
  lemma FetchRecords(lines: seq<Line>, c: Category, r: Ref)
    requires FetchSpec(lines).Ok?
    ensures r in Collection(FetchSpec(lines).value, c) <==>
            exists i :: 0 <= i < |lines| && LineEffect(lines[i]) == Record(c, r)
  {
    var es := Effects(lines);
    ReportRecords(es, c, r);
    if r in Collection(FetchSpec(lines).value, c) {
      var i :| 0 <= i < |es| && es[i] == Record(c, r);
      assert LineEffect(lines[i]) == Record(c, r);
    }
  }

  /** The report of concatenated outputs is the combination of their reports. */
  lemma FetchConcat(a: seq<Line>, b: seq<Line>)
    ensures FetchSpec(a + b) == Join(FetchSpec(a), FetchSpec(b))
  {
    EffectsConcat(a, b);
    ReportConcat(Effects(a), Effects(b));
  }

  /** A line that is not a status line changes nothing, wherever it stands. */
  lemma UnmatchedLineIgnored(a: seq<Line>, s: string, b: seq<Line>)
    requires Match(s).None?
    ensures FetchSpec(a + [Decoded(s)] + b) == FetchSpec(a + b)
  {
    EffectsConcat(a + [Decoded(s)], b);
    EffectsConcat(a, [Decoded(s)]);
    EffectsConcat(a, b);
    assert Effects([Decoded(s)]) == [Skip];
    ReportSkipIgnored(Effects(a), Effects(b));
  }

  /** A rejected ref after lines that succeeded fails the whole report,
      naming the destination, whatever follows. */
  lemma RejectedLineFails(a: seq<Line>, s: string, b: seq<Line>)
    requires FetchSpec(a).Ok? && Match(s).Some? && Match(s).value.op == '!'
    ensures FetchSpec(a + [Decoded(s)] + b) == Err(Rejected(Match(s).value.to))
  {
    var f := Match(s).value;
    OpCharOperation(f.op);
    assert LineEffect(Decoded(s)) == Fail(Rejected(f.to));
    EffectsConcat(a + [Decoded(s)], b);
    EffectsConcat(a, [Decoded(s)]);
    assert Effects([Decoded(s)]) == [Fail(Rejected(f.to))];
    ReportFailIsFinal(Effects(a), Rejected(Match(s).value.to), Effects(b));
  }

  /** Lines none of which is a status line report nothing. */
  lemma NoStatusLines(lines: seq<Line>)
    requires forall i :: 0 <= i < |lines| ==> lines[i].Decoded? && Match(lines[i].s).None?
    ensures FetchSpec(lines) == Ok(NoRefs)
  {
    ReportOfSkips(Effects(lines));
  }

  // ---- The unit test's sample output ----

  /** The three status lines of the sample, each written as its fields and
      the column padding git put between them: a new branch, a
      fast-forward and a deleted branch. */
  const SampleNewBranch := Render('*', "[new branch]", "master", Origin + "/" + "master", " ", "      ", "     ", " ")
  const SampleFastForward := Render(' ', "673b728..466e90b", "devel", Origin + "/" + "devel", " ", "  ", "      ", " ")
  const SampleDeleted := Render('-', "[deleted]", "(none)", Origin + "/" + "old", " ", "         ", "     ", " ")

  lemma SamplePaddings()
    ensures Blank(" ") && Blank("  ") && Blank("     ") && Blank("      ") && Blank("         ")
  {
  }

  lemma SampleNewBranchMatch()
    ensures Match(SampleNewBranch) == Some(Fields('*', "[new branch]", "master", Origin + "/" + "master"))
  {
    SamplePaddings();
    assert Bracketed("[new branch]") && Word("master") && Word(Origin + "/" + "master");
    MatchRendered('*', "[new branch]", "master", Origin + "/" + "master", " ", "      ", "     ", " ");
  }

  lemma SampleFastForwardMatch()
    ensures Match(SampleFastForward) == Some(Fields(' ', "673b728..466e90b", "devel", Origin + "/" + "devel"))
  {
    SamplePaddings();
    assert Word("673b728..466e90b") && Word("devel") && Word(Origin + "/" + "devel");
    MatchRendered(' ', "673b728..466e90b", "devel", Origin + "/" + "devel", " ", "  ", "      ", " ");
  }

  lemma SampleDeletedMatch()
    ensures Match(SampleDeleted) == Some(Fields('-', "[deleted]", "(none)", Origin + "/" + "old"))
  {
    SamplePaddings();
    assert Bracketed("[deleted]") && Word("(none)") && Word(Origin + "/" + "old");
    MatchRendered('-', "[deleted]", "(none)", Origin + "/" + "old", " ", "         ", "     ", " ");
  }

  /** `origin/<name>` parses as the branch `name` of `origin`. */
  lemma OriginBranch(name: string)
    ensures ParseRemoteRef(Origin + "/" + name, Origin) == Ok(Ref(Origin, name, false))
  {
    ParseOfRefName(Ref(Origin, name, false));
  }

  /** A matched line has the effect of its operation code and destination. */
  lemma MatchedLineEffect(s: string, f: Fields)
    requires Match(s) == Some(f)
    ensures LineEffect(Decoded(s)) == StatusEffect([f.op], f.to)
  {
  }

  /** The effect of a status line for the branch `name` of `origin`. */
  lemma BranchStatusEffect(op: char, name: string)
    requires op in {'*', ' ', '-'}
    ensures StatusEffect([op], Origin + "/" + name)
            == Record(if op == '*' then NewRefs else if op == ' ' then ChangedRefs else RemovedRefs, Ref(Origin, name, false))
  {
    OpCharOperation(op);
    OriginBranch(name);
    assert (Origin + "/" + name)[|Origin|] == '/';
  }

  lemma SampleNewBranchEffect()
    ensures LineEffect(Decoded(SampleNewBranch)) == Record(NewRefs, Ref(Origin, "master", false))
  {
    SampleNewBranchMatch();
    MatchedLineEffect(SampleNewBranch, Fields('*', "[new branch]", "master", Origin + "/" + "master"));
    BranchStatusEffect('*', "master");
  }

  lemma SampleFastForwardEffect()
    ensures LineEffect(Decoded(SampleFastForward)) == Record(ChangedRefs, Ref(Origin, "devel", false))
  {
    SampleFastForwardMatch();
    MatchedLineEffect(SampleFastForward, Fields(' ', "673b728..466e90b", "devel", Origin + "/" + "devel"));
    BranchStatusEffect(' ', "devel");
  }

  lemma SampleDeletedEffect()
    ensures LineEffect(Decoded(SampleDeleted)) == Record(RemovedRefs, Ref(Origin, "old", false))
  {
    SampleDeletedMatch();
    MatchedLineEffect(SampleDeleted, Fields('-', "[deleted]", "(none)", Origin + "/" + "old"));
    BranchStatusEffect('-', "old");
  }

  /** A line that is empty or starts with anything but a space is not a
      status line. */
  lemma NotStatusLine(s: string)
    requires s == [] || s[0] != ' '
    ensures Match(s).None?
  {
  }

  /** Lines that are empty or start with anything but a space, such as
      git's progress messages and its `From <url>` line. */
  predicate Unindented(lines: seq<Line>) {
    forall i :: 0 <= i < |lines| ==> lines[i].Decoded? && (lines[i].s == [] || lines[i].s[0] != ' ')
  }

  /** Progress messages report nothing. */
  lemma UnindentedReport(lines: seq<Line>)
    requires Unindented(lines)
    ensures FetchSpec(lines) == Ok(NoRefs)
  {
    forall i | 0 <= i < |lines| ensures lines[i].Decoded? && Match(lines[i].s).None? {
      NotStatusLine(lines[i].s);
    }
    NoStatusLines(lines);
  }

  /** Three lines that record one new, one changed and one removed ref. */
  lemma ThreeRecords(a: Line, b: Line, c: Line, ra: Ref, rb: Ref, rc: Ref)
    requires LineEffect(a) == Record(NewRefs, ra)
    requires LineEffect(b) == Record(ChangedRefs, rb)
    requires LineEffect(c) == Record(RemovedRefs, rc)
    ensures FetchSpec([a, b, c]) == Ok(FetchOutput({ra}, {rb}, {rc}))
  {
    var es := Effects([a, b, c]);
    assert es == [Record(NewRefs, ra), Record(ChangedRefs, rb), Record(RemovedRefs, rc)];
    ReportOfRecords(ra, rb, rc);
  }

  lemma ReportOfRecords(ra: Ref, rb: Ref, rc: Ref)
    ensures Report([Record(NewRefs, ra), Record(ChangedRefs, rb), Record(RemovedRefs, rc)])
            == Ok(FetchOutput({ra}, {rb}, {rc}))
  {
    var es := [Record(NewRefs, ra), Record(ChangedRefs, rb), Record(RemovedRefs, rc)];
    var none: set<Ref> := {};
    assert none + {ra} == {ra} && none + {rb} == {rb} && none + {rc} == {rc};
    assert es[..1][..0] == [] && es[..1][0] == es[0];
    assert Report(es[..1]) == Ok(FetchOutput({ra}, {}, {}));
    assert es[..2][..1] == es[..1] && es[..2][1] == es[1];
    assert Report(es[..2]) == Ok(FetchOutput({ra}, {rb}, {}));
    assert es[..2] == es[..|es| - 1];
  }

  /** Progress messages before, and an empty piece after, change nothing. */
  lemma ReportAmidProgress(progress: seq<Line>, status: seq<Line>, o: FetchOutput)
    requires Unindented(progress) && FetchSpec(status) == Ok(o)
    ensures FetchSpec(progress + status + [Decoded("")]) == Ok(o)
  {
    UnindentedReport(progress);
    UnindentedReport([Decoded("")]);
    FetchConcat(progress, status);
    FetchConcat(progress + status, [Decoded("")]);
    assert o.created == {} + o.created + {} && o.changed == {} + o.changed + {};
    assert o.removed == {} + o.removed + {};
  }

  /** The unit test's sample: progress messages, then the three status
      lines, then the empty piece after the final newline. It reports
      master as new, devel as changed and old as removed, all three
      branches of `origin`. */
  lemma SampleReport(progress: seq<Line>)
    requires Unindented(progress)
    ensures FetchSpec(progress + [Decoded(SampleNewBranch), Decoded(SampleFastForward), Decoded(SampleDeleted)]
                      + [Decoded("")])
            == Ok(FetchOutput({Ref(Origin, "master", false)}, {Ref(Origin, "devel", false)},
                              {Ref(Origin, "old", false)}))
  {
    SampleNewBranchEffect();
    SampleFastForwardEffect();
    SampleDeletedEffect();
    ThreeRecords(Decoded(SampleNewBranch), Decoded(SampleFastForward), Decoded(SampleDeleted),
                 Ref(Origin, "master", false), Ref(Origin, "devel", false), Ref(Origin, "old", false));
    ReportAmidProgress(progress, [Decoded(SampleNewBranch), Decoded(SampleFastForward), Decoded(SampleDeleted)],
                       FetchOutput({Ref(Origin, "master", false)}, {Ref(Origin, "devel", false)},
                                   {Ref(Origin, "old", false)}));
  }

  // ---- Branch listings ----

  /** The listing of a sequence of lines: each trimmed, empty ones dropped,
      failing at the first line that is not UTF-8. */
  function ListingSpec(lines: seq<Line>): (r: Result<seq<string>, Error>)
    ensures r.Err? ==> r.error == NonUtf8
    ensures r.Ok? ==> |r.value| <= |lines|
  {
    if lines == [] then Ok([])
    else
      var prev := ListingSpec(lines[..|lines| - 1]);
      var last := lines[|lines| - 1];
      if prev.Err? then prev
      else if last.Undecodable? then Err(NonUtf8)
      else if Trim(last.s) == [] then prev
      else Ok(prev.value + [Trim(last.s)])
  }

  /** The parser of `git branch --merged` and `git branch --contains` output. */
  method ParseBranchListing(lines: seq<Line>) returns (r: Result<seq<string>, Error>)
    ensures r == ListingSpec(lines)
  {
    var refs: seq<string> := [];
    var i := 0;
    while i < |lines|
      invariant 0 <= i <= |lines|
      invariant ListingSpec(lines[..i]) == Ok(refs)
    {
      assert lines[..i + 1][..i] == lines[..i];
      if lines[i].Undecodable? {
        ListingFailureSticks(lines, i + 1);
        return Err(NonUtf8);
      }
      var line := Trim(lines[i].s);
      if line != [] {
        refs := refs + [line];
      }
      i := i + 1;
    }
    assert lines[..i] == lines;
    r := Ok(refs);
  }

  lemma {:induction false} ListingFailureSticks(lines: seq<Line>, n: nat)
    requires n <= |lines| && ListingSpec(lines[..n]).Err?
    ensures ListingSpec(lines) == ListingSpec(lines[..n])
    decreases |lines| - n
  {
    if n < |lines| {
      assert lines[..n + 1][..n] == lines[..n];
      ListingFailureSticks(lines, n + 1);
    } else {
      assert lines[..n] == lines;
    }
  }

  /** Every line is UTF-8. */
  predicate AllDecoded(lines: seq<Line>) {
    forall i :: 0 <= i < |lines| ==> lines[i].Decoded?
  }

  /** A decoded line's contribution to a listing: its trimmed text,
      unless that is empty. */
  function KeptLine(l: Line): (r: seq<string>)
    requires l.Decoded?
    ensures |r| <= 1
  {
    var t := Trim(l.s);
    if t == [] then [] else [t]
  }

  /** The trimmed, non-empty lines, first to last. */
  function Kept(lines: seq<Line>): (r: seq<string>)
    requires AllDecoded(lines)
    ensures |r| <= |lines|
  {
    if lines == [] then [] else KeptLine(lines[0]) + Kept(lines[1..])
  }

  lemma AllDecodedSnoc(lines: seq<Line>, l: Line)
    requires AllDecoded(lines) && l.Decoded?
    ensures AllDecoded(lines + [l])
  {
    var all := lines + [l];
    assert forall i :: 0 <= i < |lines| ==> all[i] == lines[i];
    assert all[|lines|] == l;
  }

  /** Kept on one more line at the end. */
  lemma {:induction false} KeptSnoc(lines: seq<Line>, l: Line)
    requires AllDecoded(lines + [l])
    ensures AllDecoded(lines) && l.Decoded?
    ensures Kept(lines + [l]) == Kept(lines) + KeptLine(l)
  {
    var all := lines + [l];
    assert all[|lines|] == l;
    assert forall i :: 0 <= i < |lines| ==> all[i] == lines[i];
    if lines == [] {
      assert all[1..] == [];
    } else {
      assert all[0] == lines[0];
      assert all[1..] == lines[1..] + [l];
      KeptSnoc(lines[1..], l);
    }
  }

  /** A listing fails exactly when some line is not UTF-8. */
  lemma {:induction false} ListingSucceeds(lines: seq<Line>)
    ensures ListingSpec(lines).Ok? <==> AllDecoded(lines)
  {
    if lines != [] {
      var init := lines[..|lines| - 1];
      assert forall i :: 0 <= i < |init| ==> init[i] == lines[i];
      ListingSucceeds(init);
    }
  }

  /** A listing of UTF-8 lines holds the trimmed non-empty lines in their
      original order. */
  lemma {:induction false} ListingIsKept(lines: seq<Line>)
    requires AllDecoded(lines)
    ensures ListingSpec(lines) == Ok(Kept(lines))
  {
    if lines != [] {
      var init := lines[..|lines| - 1];
      var last := lines[|lines| - 1];
      assert lines == init + [last];
      KeptSnoc(init, last);
      ListingIsKept(init);
      if Trim(last.s) == [] {
        assert Kept(lines) == Kept(init) + [] == Kept(init);
      }
    }
  }

  /** A name as a listing holds it: non-empty, and neither starting nor
      ending with white space. */
  predicate Trimmed(n: string) {
    n != [] && !IsWhitespace(n[0]) && !IsWhitespace(n[|n| - 1])
  }

  lemma KeptLineTrimmed(l: Line)
    requires l.Decoded?
    ensures forall k :: 0 <= k < |KeptLine(l)| ==> Trimmed(KeptLine(l)[k])
  {
    TrimTrims(l.s);
  }

  /** Every kept name is non-empty and starts and ends with a
      non-whitespace character. */
  lemma {:induction false} KeptTrimmed(lines: seq<Line>)
    requires AllDecoded(lines)
    ensures forall k :: 0 <= k < |Kept(lines)| ==> Trimmed(Kept(lines)[k])
  {
    if lines != [] {
      var head, rest := KeptLine(lines[0]), Kept(lines[1..]);
      KeptTrimmed(lines[1..]);
      KeptLineTrimmed(lines[0]);
      var r := Kept(lines);
      assert r == head + rest;
      forall k | 0 <= k < |r| ensures Trimmed(r[k]) {
        if k < |head| {
          assert r[k] == head[k];
        } else {
          assert r[k] == rest[k - |head|];
        }
      }
    }
  }
}
