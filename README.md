# doublegit, modelled in Dafny

doublegit archives a git repository. It mirrors the `origin` remote into a
bare repository. After each `git fetch` it records, in a SQLite table, for
how long each branch and tag pointed at which commit or tag object. It tries
to keep every recorded commit safe from garbage collection by pointing a
branch `keep-<sha>` at it. For an annotated tag, git points that branch at
the commit the tag names. Then it prunes the keepers that other branches
already keep alive. A small web
server redirects its index page to the repository's main branch.

This project models the core of the program:

- the fetch-operation codes and their byte conversion (`Lib`);
- the git-fetch status-line grammar (`FetchLine`);
- references and their names (`Refs`);
- the Rust parsers of git's output (`Git`): `parse_operation`,
  `parse_fetch_output` into three sets, and the branch-listing parser;
- the Python parser of the fetch report into three lists (`DoubleGit`), and
  how it agrees with the Rust parser;
- the table of ref periods, with its close and open steps (`RefsTable`);
- keeper branches over an abstract commit-ancestry graph (`Keepers`);
- one whole update of a mirror, as a class whose rows and branches change in
  place (`Archive`);
- the web server's choice of head branch (`Web`).

Git's output is given to the parsers as a sequence of lines. Each line is
either text or `Undecodable`, its bytes not being UTF-8. `git rev-parse`
becomes a map from names to hashes. Commit ancestry becomes a set of
(ancestor, descendant) pairs that is irreflexive and transitive. A second map
sends each annotated-tag object to the commit it names. The clock
becomes a `time` parameter. Timestamps are strings, ordered by code point,
which is how SQLite compares text.

The central results:

- The loop methods equal their specification functions.
- The Rust and Python fetch parsers give every line the same effect; only
  the Rust one collapses duplicates.
- The close step touches only the latest row of each ref.
- The open step appends exactly one row per recorded ref.
- An update that fails leaves the table and the keeper branches unchanged.
- Every update, with the correction under Findings, keeps alive every
  commit the table has ever recorded. For a row that holds an annotated-tag
  object, it keeps alive the commit that tag names
  (`Archive.Mirror.Update` preserves `Valid`). No branch can keep the tag
  object itself alive (`Keepers.TagObjectUnkept`).
- As written, the prune loop can fail on a keeper it already deleted. It can
  also delete every keeper of a commit when a branch and an annotated tag
  reach that commit in the same fetch (see Findings).

## Model

| member | source | states |
|---|---|---|
| Text.Utf8Length | src/git.rs:28-30 | the UTF-8 byte length is at least the character count, and is 1 exactly for a single ASCII character |
| Text.TrimStartDrops | src/git.rs:262-264 | `TrimStart` keeps a suffix that does not start with white space and drops only white space |
| Text.TrimEndDrops | src/git.rs:262-264 | `TrimEnd` keeps a prefix that does not end with white space and drops only white space |
| Text.TrimTrims | src/git.rs:262-264 | `Trim` returns a slice of its input that neither starts nor ends with white space |
| Text.IndexOf | doublegit.py:48 | the index of the first occurrence of a character, `None` exactly when it is absent |
| Lib.TryFromByte | src/lib.rs:22-33 | a byte converts exactly when it is one of the seven status bytes, and the result's status byte is that byte |
| Lib.OpByte | src/lib.rs:24-30 | every operation has one of the seven status bytes |
| Lib.TryFromAcceptsExactly | src/lib.rs:22-33 | `try_from` succeeds exactly on the bytes `' ' + - t * ! =`; every other byte gives `Err(())` |
| Lib.TryFromBijection | src/lib.rs:9-34 | `try_from(b) == Ok(op)` exactly when `b` is the status byte of `op`: a bijection between the seven bytes and the seven variants |
| Lib.OpByteInjective | src/lib.rs:9-17 | distinct operations have distinct bytes |
| FetchLine.Match | src/git.rs:77-79 | a matching line starts with a space and an operation code from `[+t*! -]`, and its destination is a non-empty word without spaces |
| FetchLine.MatchTail | src/git.rs:78 | the source and destination groups are non-empty and free of spaces |
| FetchLine.MatchBracketed | src/git.rs:78 | a bracketed summary with spaces inside, such as `[new branch]`, is matched by the second alternative with the fields it was written with |
| FetchLine.WordAlternativeFails | src/git.rs:78 | on a bracketed summary containing a space, the plain-word alternative cannot match the rest of the line |
| FetchLine.MatchRendered | src/git.rs:78 | any status line written as git prints it matches, and its groups give back the fields it was written from |
| Refs.ParseRemoteRef | doublegit.py:47-54 | on success the result is a branch of the given remote and `refname` is `remote/name`; otherwise the error names `refname` |
| Refs.RefName | doublegit.py:57-61 | a tag's name is its own name; a branch's is the remote, a '/', then the name |
| Refs.RefNameOfParse | doublegit.py:47-61 | printing a parsed remote ref gives back the input |
| Refs.ParseOfRefName | doublegit.py:47-61 | parsing a printed branch ref gives back the ref, for a remote without '/' |
| Refs.ParseRemoteRefFails | doublegit.py:47-54 | parsing fails exactly when the input does not start with the remote followed by '/' |
| Git.ParseOperation | src/git.rs:27-42 | fails with `InvalidOperation` unless the code is one byte long; on success that byte is the operation's status byte; every status byte succeeds |
| Git.ParseOperationExamples | src/git.rs:326-332 | `""`, `"++"` and the two-byte `"é"` are refused, and `"+"` gives `Forced` |
| Git.ParseOperationAgrees | src/lib.rs:22-33 | on one ASCII byte, `parse_operation` and `try_from` accept the same bytes and give the same operation |
| Git.OpEffect | src/git.rs:93-142 | `!` fails naming the destination and `=` does nothing; `t` records the changed tag named by the destination; `*` or `-` with no '/' records the new or removed tag; `' '`, `+`, and `*`/`-` with a '/', record the remote-ref parse of the destination and fail exactly when that parse fails, with `BadRemoteRef`; a recorded ref prints back as the destination and its category follows the operation |
| Git.OpCharOperation | src/git.rs:89-92 | every code of the grammar's class converts, never to `Noop`, and `!` converts to `Reject` |
| Git.MatchedOperation | src/git.rs:87-92 | the operation code of a matched line always converts, and is never `=` |
| Git.LineEffect | src/git.rs:85-145 | an undecodable line fails with `NonUtf8`, a non-matching line does nothing, and no line fails with `InvalidOperation` |
| Git.FetchSpec | src/git.rs:75-148 | the report of the fetch output; it never fails with `InvalidOperation`, since no matched line reaches that error |
| Git.ParseFetchOutput | src/git.rs:75-148 | the loop over lines with early return computes `FetchSpec(lines)` |
| Git.ApplyLine | src/git.rs:85-145 | the loop body computes one step of `FetchSpec` for its line |
| Git.ApplyStatus | src/git.rs:92-142 | the match on the operation computes one step for a status line |
| Git.FailureSticks | src/git.rs:85-86 | once a prefix of the lines fails, the whole output fails with the same error |
| Git.FetchSucceeds | src/git.rs:84-147 | the parse succeeds exactly when no line fails |
| Git.FetchFailsAtFirstError | src/git.rs:84-147 | a failure carries the error of a failing line |
| Git.FetchRecords | src/git.rs:81-83 | a ref is in a collection of the result exactly when some line records it there |
| Git.FetchConcat | src/git.rs:84-147 | the result for concatenated outputs is the union of their results, or the first failure |
| Git.UnmatchedLineIgnored | src/git.rs:143-145 | a line that does not match changes nothing, wherever it stands |
| Git.RejectedLineFails | src/git.rs:135-140 | a `!` line after lines that succeeded fails the whole parse with an error naming its destination |
| Git.NoStatusLines | src/git.rs:143-145 | output with no status line gives three empty sets |
| Git.NotStatusLine | src/git.rs:78 | an empty line, or one that does not start with a space, does not match |
| Git.UnindentedReport | src/git.rs:337-343 | progress messages report nothing |
| Git.SampleNewBranchMatch | src/git.rs:344 | the sample's `[new branch]` line matches with its four fields |
| Git.SampleFastForwardMatch | src/git.rs:345 | the sample's fast-forward line matches with its four fields |
| Git.SampleDeletedMatch | src/git.rs:346 | the sample's `[deleted]` line matches with its four fields |
| Git.MatchedLineEffect | src/git.rs:87-92 | a matched line has the effect of its operation code and destination |
| Git.BranchStatusEffect | src/git.rs:94-126 | a `*`, ` ` or `-` line for `origin/<name>` records the branch `name` as new, changed or removed |
| Git.SampleNewBranchEffect | src/git.rs:344 | the line records the new branch `master` |
| Git.SampleFastForwardEffect | src/git.rs:345 | the line records the changed branch `devel` |
| Git.SampleDeletedEffect | src/git.rs:346 | the line records the removed branch `old` |
| Git.ThreeRecords | src/git.rs:348-375 | three lines recording a new, a changed and a removed ref give one-element sets |
| Git.ReportAmidProgress | src/git.rs:336-347 | progress messages before the status lines and the empty piece after the final newline change nothing |
| Git.SampleReport | src/git.rs:335-376 | the sample output gives new = {master}, changed = {devel}, removed = {old}, none of them tags |
| Git.ListingSpec | src/git.rs:260-269 | the listing fails only with `NonUtf8`, and lists at most one name per line |
| Git.Kept | src/git.rs:264-267 | the kept names of UTF-8 lines, at most one per line |
| Git.ParseBranchListing | src/git.rs:260-269 | the listing loop computes `ListingSpec(lines)` |
| Git.ListingFailureSticks | src/git.rs:262-263 | once a prefix of the listing fails, the whole listing fails the same way |
| Git.ListingSucceeds | src/git.rs:261-264 | a listing fails exactly when some line is not UTF-8 |
| Git.ListingIsKept | src/git.rs:260-269 | a listing of UTF-8 lines is the trimmed non-empty lines, in order |
| Git.KeptLineTrimmed | src/git.rs:264-267 | a line contributes at most one name, and that name is trimmed and non-empty |
| Git.KeptTrimmed | src/git.rs:264-267 | every listed name is non-empty and starts and ends with a character that is not white space |
| DoubleGit.ChainEffect | doublegit.py:76-93 | `!` raises naming the destination; a code outside the grammar's class reaches `RuntimeError`; `t` records the changed tag; any other failure is a bad remote ref; a recorded ref prints back as the destination, new for `*`, removed for `-`, changed otherwise |
| DoubleGit.ChainAgrees | doublegit.py:76-91 | on each code of the grammar's class, the Python `elif` chain does what the Rust match does |
| DoubleGit.ChainFallsThrough | doublegit.py:92-93 | the final `else` is reached exactly for codes outside the grammar's class |
| DoubleGit.PyLineEffect | doublegit.py:69-95 | an undecodable line fails with `NonUtf8`, and a non-matching line does nothing |
| DoubleGit.PyLineAgrees | doublegit.py:69-95 | every line has the same effect in Python and in Rust, and the `RuntimeError` branch is unreachable |
| DoubleGit.Append | doublegit.py:78-89 | appending to one list leaves the other two unchanged |
| DoubleGit.ParseFetchOutput | doublegit.py:64-96 | the loop appending to three lists computes `PySpec(lines)` |
| DoubleGit.AppendLine | doublegit.py:70-95 | the loop body computes one step of `PySpec` for its line |
| DoubleGit.PyFailureSticks | doublegit.py:90-93 | once a prefix fails, the whole parse fails with the same error |
| DoubleGit.PySpecAsSets | doublegit.py:64-96 | the Python parse succeeds exactly when the Rust one does, with the same error, and its lists hold exactly the refs of the Rust sets |
| DoubleGit.PySpecConcat | doublegit.py:64-96 | the lists for concatenated outputs are the concatenated lists, or the first failure |
| DoubleGit.RepeatedLine | doublegit.py:66-68 | a line repeated twice gives a list with the ref twice, where the Rust parser gives a one-element set |
| DoubleGit.PyUnindented | doublegit.py:94-95 | progress messages give three empty lists |
| DoubleGit.PyAmidProgress | doublegit.py:69-95 | progress messages before the status lines change nothing |
| DoubleGit.PyThreeRecords | tests.py:33-36 | three recording lines give one-element lists |
| DoubleGit.PySampleReport | tests.py:20-36 | the unit test's sample gives `[master]`, `[devel]` and `[old]`, all branches of `origin` |
| RefsTable.Latest | doublegit.py:166-172 | `None` exactly when no row has the ref's remote and name; otherwise an index of such a row |
| RefsTable.LatestIsGreatest | doublegit.py:169-171 | the chosen row has the greatest `from_date` among the ref's rows, and no later row of the ref has the same date |
| RefsTable.CloseLatest | doublegit.py:165-174 | only the ref's latest row gets `to_date = time`; every other row stays; nothing changes when the ref has no row |
| RefsTable.CloseAll | doublegit.py:165-174 | the close loop keeps the number of rows, and every row's hash and `from_date` |
| RefsTable.LatestSameDates | doublegit.py:165-174 | the row the close step picks depends only on remote, name and `from_date` |
| RefsTable.CloseAllClosesLatest | doublegit.py:165-174 | after the close loop, the latest row of every listed ref has `to_date = time` |
| RefsTable.CloseAllOnlyCloses | doublegit.py:165-174 | the close loop keeps the rows and their order, changes only `to_date` to `time`, and leaves the rows of other refs alone |
| RefsTable.CloseIgnoresTagAndToDate | doublegit.py:168-170 | the close step matches rows on remote and name only, so it can re-close a closed tag row |
| RefsTable.OpenRow | doublegit.py:179-182 | the inserted row has the ref's remote, name and tag flag, starts at `time`, is open, and holds the hash |
| RefsTable.OpenAll | doublegit.py:175-183 | the open loop keeps the existing rows as a prefix and adds one row per ref |
| RefsTable.OpenAllAppends | doublegit.py:175-183 | the open loop keeps every row and appends exactly one open row per ref, in order |
| RefsTable.Resolve | doublegit.py:99-102 | all refs resolve exactly when every name is in the map, giving the mapped hashes; otherwise the error names a ref that does not resolve |
| RefsTable.ResolveSnoc | doublegit.py:175-176 | resolving one more resolvable ref appends its hash |
| RefsTable.ResolveStops | doublegit.py:175-176 | the first ref that does not resolve is the one the error names |
| RefsTable.TablePushed | tests.py:90-100 | pushing br1 gives one open row |
| RefsTable.TableMoved | tests.py:105-112 | moving br1 closes its row at 17:03 and opens one |
| RefsTable.TableForced | tests.py:117-124 | forcing br1 back closes only its open row |
| RefsTable.TableReplaced | tests.py:129-140 | deleting br1 and pushing br2 closes br1 and opens br2 |
| Keepers.Peel | doublegit.py:105-107 | the commit `git branch -f` takes for a hash: always a commit, and the hash itself when it names a commit |
| Keepers.AncestorOrder | src/git.rs:240-243 | "is an ancestor of" is reflexive, transitive and antisymmetric |
| Keepers.KeepName | doublegit.py:193 | `keep-<s>` is `keep-` followed by `s` |
| Keepers.KeepNameInjective | src/tests_integration.rs:369-372 | a keeper's name determines its hash |
| Keepers.KeeperTip | doublegit.py:186-188 | while every branch is a keeper, the keeper of `s` points at the commit `s` stands for |
| Keepers.TagObjectUnkept | doublegit.py:186-188 | branches point only at commits, so no keeper keeps an annotated-tag object alive |
| Keepers.Included | src/git.rs:240-249 | holds exactly the branches whose tip is an ancestor of the commit `s` stands for |
| Keepers.Including | src/git.rs:272-281 | holds exactly the branches that have the commit `s` stands for as an ancestor |
| Keepers.DeleteBranch | src/git.rs:304-318 | fails with `MissingBranch` exactly when the branch does not exist; otherwise it removes just that branch |
| Keepers.CreateKeepers | doublegit.py:186-188 | the keeper loop keeps every branch, and changes or adds only branches named `keep-…` |
| Keepers.CreateKeepersSafe | doublegit.py:186-188 | the keeper loop keeps every branch a keeper pointing at the commit its hash stands for, and keeps alive what was alive |
| Keepers.CreateKeepersKeep | doublegit.py:186-188 | after the keeper loop, each hash's keeper points at the commit the hash stands for: the hash itself, or the commit an annotated tag names |
| Keepers.CreateKeepersAdds | doublegit.py:186-188 | the keeper loop adds the hashes' keepers and no other branch |
| Keepers.PruneIncluded | doublegit.py:193-196 | the inner loop deletes every branch `s` includes except the one named `keep-<s>`, and changes no other |
| Keepers.PruneStep | doublegit.py:192-198 | with the missing check added, a step whose keeper is gone changes nothing; otherwise it is the archiver's own step, which then succeeds; it only deletes branches that `s` includes or `keep-<s>` |
| Keepers.PruneAll | doublegit.py:191-198 | the corrected prune loop only deletes branches |
| Keepers.PruneStepAsWritten | doublegit.py:192-198 | a prune step as written fails, with `MissingBranch(keep-<s>)`, exactly for a branch ref whose keeper is gone while more than one branch contains `s`; otherwise it only deletes branches, and only included ones or `keep-<s>`; while `keep-<s>` exists the step succeeds and deletes it exactly for a branch ref with more than one branch containing `s` |
| Keepers.PruneAllAsWritten | doublegit.py:191-198 | the prune loop as written only deletes branches, and can fail only on a missing `keep-…` branch |
| Keepers.PruneIncludedSafe | doublegit.py:193-196 | while `keep-<s>` exists, the inner loop keeps it, leaves only keepers and loses no commit that was alive |
| Keepers.PruneStepSafe | doublegit.py:192-198 | a corrected prune step loses no commit and leaves only keepers |
| Keepers.PruneAllSafe | doublegit.py:191-198 | the corrected prune loop loses no commit and leaves only keepers, whatever the targets |
| Keepers.KeeperDeletedOnlyIfRedundant | doublegit.py:197-198 | a hash's keeper disappears at its own step exactly for a branch and when more than one branch contains the commit |
| Keepers.AsWrittenAgrees | doublegit.py:191-198 | with no annotated tag involved and every target's keeper created, whenever the archiver's own prune loop succeeds it does what the corrected loop does |
| Keepers.AsWrittenStepAgrees | doublegit.py:192-198 | the same for one more step, which also keeps every remaining branch off the commits at or below the tip of a deleted one |
| Keepers.CommitsValid | tests.py:90-134 | the unit test's three commits form a valid ancestry graph |
| Keepers.ScenarioMoved | tests.py:105-115 | moving br1 to commit two leaves only `keep-two` |
| Keepers.ScenarioForced | tests.py:117-127 | forcing br1 back to commit one creates and prunes `keep-one`, leaving `keep-two` |
| Keepers.ScenarioBranched | tests.py:129-144 | br2 at commit three leaves `keep-two` and `keep-three` |
| Keepers.FirstDelete | doublegit.py:191-198 | the first prune step for commit one deletes `keep-one` |
| Keepers.SecondDelete | doublegit.py:191-198 | a second prune step for commit one fails as written and changes nothing when corrected |
| Keepers.DoubleDeleteFails | doublegit.py:191-198 | two refs recorded at commit one make the archiver's prune loop fail, while the corrected loop leaves `keep-two` and `keep-three` |
| Keepers.TaggedValid | tests.py:162-167 | commits one, two, three and an annotated tag object on two form a valid graph |
| Keepers.ReleaseKeepers | doublegit.py:186-188 | br1 moving to two and an annotated tag2 created on two give `keep-two`, and `keep-tag2` at commit two |
| Keepers.ReleaseLosesCommits | doublegit.py:191-198 | as written, the prune loop then deletes every keeper, so neither commit one nor commit two is kept alive |
| Keepers.ReleaseStepTwo | doublegit.py:192-198 | the step for two deletes `keep-one` and `keep-tag2`, as written and corrected, and keeps `keep-two`, the only branch containing two |
| Keepers.ReleaseKeepsCommits | doublegit.py:191-198 | corrected, the step for tag2 finds its keeper gone and does nothing, so `keep-two` keeps commits one and two alive |
| Keepers.TagsValid | tests.py:146-178 | the unit test's commits with its two successive tag2 objects form a valid graph |
| Keepers.TagOneCreated | tests.py:146-153 | the light-weight tag1 on commit one keeps its keeper, though two other branches contain one |
| Keepers.TagTwoCreated | tests.py:155-163 | the annotated tag2 on commit two deletes `keep-one` and `keep-two` and keeps the tag's keeper and `keep-three` |
| Keepers.TagsMovedStep | tests.py:165-178 | moving tag1 to two deletes both tag objects' keepers, which are merged into two |
| Keepers.TagsMoved | tests.py:165-178 | after the tags move, the corrected loop and the archiver's own loop both leave exactly `keep-two` and `keep-three` |
| Archive.MarksCovered | doublegit.py:186-188 | after the keeper loop the commit of every recorded hash is alive: the hash itself, or the commit an annotated tag names |
| Archive.RowsCovered | doublegit.py:165-183 | branches keeping alive the commits of the old rows and of the recorded hashes keep alive the commit of every row after the table writes |
| Archive.Apply | doublegit.py:165-198 | the writes add one row per recorded ref and touch only branches named `keep-…` |
| Archive.ApplyKeepsAlive | doublegit.py:165-198 | the writes of an update, with the corrected prune loop, keep the commit of every row alive, and every branch a keeper |
| Archive.UpdateSpec | doublegit.py:133-200 | an update fails when the fetch report does; on success it adds one row per changed or new ref and touches only branches named `keep-…` |
| Archive.UpdateKeepsAlive | doublegit.py:133-200 | every update that succeeds keeps the commit of every row alive |
| Archive.ApplyRows | doublegit.py:165-183 | the writes keep the old rows, closing some, and append one open row per recorded ref with its hash |
| Archive.UpdateRows | doublegit.py:165-183 | an update that succeeds keeps the old rows, closing some, and appends one open row per changed or new ref with the hash it resolves to |
| Archive.UpdateFails | doublegit.py:159-176 | an update fails when the fetch report does, with its error, and otherwise exactly when a changed or new ref does not resolve |
| Archive.QuietFetch | doublegit.py:159-200 | a fetch whose report lists no removed, changed or new ref leaves the table and the branches as they were |
| Archive.ProgressOnlyFetch | doublegit.py:159-200 | in particular a fetch that prints only progress messages |
| Archive.CloseRows | doublegit.py:165-174 | the close loop computes `CloseAll` |
| Archive.OpenRows | doublegit.py:175-183 | the open loop computes `OpenAll` over the resolved hashes, or fails with the resolution's error |
| Archive.Mirror.constructor | doublegit.py:141-154 | a fresh mirror has an empty table and no branches, and is valid |
| Archive.Mirror.MakeKeepers | doublegit.py:186-188 | the keeper loop sets the branches to `CreateKeepers`, each keeper at the commit its hash stands for, and leaves the rows alone |
| Archive.Mirror.DeleteIncluded | doublegit.py:194-196 | the inner deletion loop, comparing each name with `keep-<s>` as the archiver does, leaves exactly `PruneIncluded` |
| Archive.Mirror.PruneRef | doublegit.py:192-198 | one prune iteration, skipped when its keeper is gone, leaves exactly `PruneStep` |
| Archive.Mirror.PruneRefs | doublegit.py:191-198 | the prune loop leaves exactly `PruneAll` |
| Archive.Mirror.Update | doublegit.py:133-200 | the update does what `UpdateSpec` says; on failure the rows and branches are unchanged; it preserves `Valid`: the commit of every row is kept alive |
| Web.RowLeTotal | src/web.rs:70 | the order of `from_date, name` is total |
| Web.RowLeTransitive | src/web.rs:70 | the order of `from_date, name` is transitive |
| Web.RowLeAntisymmetric | src/web.rs:70 | rows equal in that order have the same date and name |
| Web.Newest | src/web.rs:66-75 | `None` exactly when no row is a live branch; otherwise an index of a live branch row |
| Web.NewestIsGreatest | src/web.rs:66-75 | the chosen row sorts no earlier than any live branch row by `from_date`, then name |
| Web.ChooseHead | src/web.rs:52-80 | `None`, where the server panics, exactly when no live branch row exists; otherwise the name of a live branch row, so tag rows and closed rows are never chosen |
| Web.MasterPreferred | src/web.rs:55-63 | a live `master` branch row makes the head `master` |
| Web.HeadIsNewest | src/web.rs:66-75 | without a live `master`, the head is the name of a live branch row that sorts last by `from_date`, then name |
| Web.HeadDetermined | src/web.rs:70 | any two rows that sort last have the same name, so ties cannot change the head |
| Web.Redirect | src/web.rs:86 | the location is `/_/latest/` followed by the head |
| Web.HeadOfHistory | src/web.rs:66-75 | with br1 closed and br2 live, as after the unit test's last update, the head is br2 |

## Left out

- Running git is left out: `fetch`, `get_sha`, `make_branch`, `make_ref`, `is_annotated_tag` and the `git branch` commands. The model takes their outputs as inputs: lines of fetch output, a map from names to hashes, and an ancestry graph. It also models their effects on a branch map. A non-zero exit status of `git fetch` is not modelled.
- SQLite is left out: opening the database, creating the table, the repository check at the start of `update`, and the transaction itself. The table is a sequence of rows. `conn.commit()` is modelled by `Mirror.Update` writing its rows only on success.
- The clock is left out: `datetime.utcnow()` and `SystemTime::now()` become the `time` parameter.
- The regular-expression engine is left out; a hand-written matcher stands in for the one pattern.
- UTF-8 decoding is reduced to a per-line flag. Splitting into lines is left to the caller. Rust splits on `'\n'`, so output ending in a newline leaves a final empty piece, which the samples include. Python's `splitlines` does not leave one.
- DoubleGit.PySpecAsSets: the two parsers agree line by line, not on whole outputs. Python's `bytes.splitlines()` also splits at `'\r'` and at `"\r\n"`, where Rust splits only at `'\n'`. A status line ending in `"\r\n"` gives Rust the destination `"origin/x\r"` and Python `"origin/x"`. The model takes both parsers' input already split.
- Logging (`info!`, `logger`) is left out.
- The raw `refs/kept-tags/` refs for annotated tags are left out: no shown code creates or prunes them.
- Archive.Alive: for a row that holds an annotated-tag object, the invariant covers the commit the tag names, not the tag object. The archiver keeps no ref to the tag object: `git branch -f keep-<T> T` points at the commit, and `Keepers.TagObjectUnkept` shows no branch can keep a tag object alive. Once the tag moves or is deleted upstream, as in tests.py:166-189, the recorded tag object is unreachable.
- Keepers.ValidGraph: every annotated tag names a commit. A tag of a tree or a blob, for which `git branch -f` fails, is not modelled, and neither is a tag of a tag, which git peels to the final commit.
- The stubs of src/lib.rs (`Ref::parse_remote_ref`, `fetch`, `parse_fetch_output`, `update_with_date`) are left out, and so are main.rs, the web server's routing, templates and `browse`, and the platform APIs.
- The one-argument `Ref::parse_remote_ref` that src/git.rs calls is not part of this model. The Rust parser uses the Python rules with remote `origin`. src/lib.rs:36-40 declares a `remote` field on `Ref`, but the `Ref` literals in src/git.rs set none. The model gives them `origin`, as the Python parser does.
- The regex's fifth group, the reason text, is checked but not captured, since neither parser reads it.
- The Python parser raises `ValueError`, `RuntimeError` or `AssertionError`, and Rust returns `Error::Git` with a message. Here all of them are one `Error` datatype.
- Keepers.Included: the listing parser's output is not used. `git branch --merged` and `--contains` are modelled directly as sets of branch names computed from the graph. `git branch` marks the current branch with `* `, and trimming does not remove that mark; a bare mirror has no current branch.
- RefsTable.Latest: among rows with the same greatest `from_date`, the model closes the last one in table order. `UPDATE … ORDER BY … LIMIT 1` leaves the choice to SQLite.
- Web.Newest: among rows equal in date and name, the model picks the last one. `Web.HeadDetermined` shows that this choice cannot change the head.
- Archive.Mirror.Update: uses the corrected prune step of both Findings rows: an iteration whose keeper an earlier iteration has already deleted is skipped. The correction is a choice. Every other iteration is exactly the archiver's (`Keepers.PruneStep`), so the keepers left after the unit test's tag steps are the archiver's (`Keepers.TagsMoved`). The archiver as written can fail in its prune loop, with branches already deleted and the table not committed. It can also delete every keeper of a commit. Both paths are stated for the prune loop alone, in `Keepers.PruneAllAsWritten`.
- Archive.Mirror.Update: a failed update leaves the table and the keeper branches unchanged, but not the rest of the mirror. `fetch` (doublegit.py:159) has already moved `refs/remotes/origin/*` and `refs/tags/*` before any parse or resolve failure. The next fetch does not report those refs again, so their rows are never written. The model has no state for those refs.
- Archive.UpdateSpec: all three `get_sha` calls for one ref give the same hash, because one fixed map resolves them. `make_branch` and `delete_branch` do run between the second and third calls. They touch only `refs/heads/keep-…`. A branch ref's name is `origin/<name>`, which `git rev-parse` resolves as `refs/remotes/origin/<name>` unless `refs/origin/<name>`, `refs/tags/origin/<name>` or `refs/heads/origin/<name>` exists; an upstream tag of that name, which the fetch copies, would shadow it. A tag's name resolves through `refs/tags/` before `refs/heads/`. A keeper can shadow neither.
- The unit-test scenarios write the times as minutes ("17:01") and the hashes as commit messages ("one").

## Findings

| source | as written | input that shows it | evidently intended | confidence | as-written member | corrected member |
|---|---|---|---|---|---|---|
| doublegit.py:197-198 | each prune iteration deletes `keep-<sha>` whenever more than one branch contains the commit, without checking that the keeper still exists | one fetch records two refs at the same commit `one`, which `keep-two` and `keep-three` already contain. The first iteration deletes `keep-one`. The second runs `git branch -D keep-one` on a missing branch, which fails, so the update aborts before `conn.commit()` and the new rows are lost | skip the iteration of a ref whose keeper an earlier iteration has already deleted; with that check, every recorded commit stays alive | not executed | Keepers.DoubleDeleteFails | Keepers.PruneAllSafe |
| doublegit.py:194-196 | an iteration runs its inner loop even when an earlier iteration has already deleted its keeper, so the loop deletes every branch merged into the commit, the last keeper of that commit among them | one fetch fast-forwards br1 from commit one to two and creates an annotated tag2 on two. The keepers are `keep-one`, `keep-two`, and `keep-tag2`, which git points at two. The step for two deletes `keep-one` and `keep-tag2`, whose tip is merged into two. The step for tag2 then deletes `keep-two`, whose tip is merged into the commit tag2 names. No keeper is left for commits one and two, which only the remote-tracking ref and the tag still reach | skip the iteration of a ref whose keeper an earlier iteration has already deleted, as for the row above; then `keep-two` survives and every recorded commit stays alive | not executed | Keepers.ReleaseLosesCommits | Keepers.PruneAllSafe |
