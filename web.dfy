/** The branch the archive browser's index page redirects to, chosen from
    the table of ref periods: `master` when it is live, otherwise the live
    branch updated last. */
module Web {
  import opened Wrappers
  import opened Text
  import opened RefsTable

  /** A row of a branch whose period is still open. */
  predicate Live(row: Row) {
    !row.tag && row.toDate.None?
  }

  /** The order of `ORDER BY from_date, name`: `a` sorts no later than `b`. */
  predicate RowLe(a: Row, b: Row) {
    LexLt(a.fromDate, b.fromDate) || (a.fromDate == b.fromDate && LexLe(a.name, b.name))
  }

  lemma RowLeTotal(a: Row, b: Row)
    ensures RowLe(a, b) || RowLe(b, a)
  {
    LexLeTotal(a.fromDate, b.fromDate);
    LexLeTotal(a.name, b.name);
  }

  lemma RowLeTransitive(a: Row, b: Row, c: Row)
    requires RowLe(a, b) && RowLe(b, c)
    ensures RowLe(a, c)
  {
    LexLeRefl(a.fromDate);
    LexLeRefl(b.fromDate);
    LexLeTransitive(a.fromDate, b.fromDate, c.fromDate);
    if a.fromDate == c.fromDate {
      LexLeAntisymmetric(a.fromDate, b.fromDate);
      LexLeTransitive(a.name, b.name, c.name);
    }
  }

  lemma RowLeAntisymmetric(a: Row, b: Row)
    requires RowLe(a, b) && RowLe(b, a)
    ensures a.fromDate == b.fromDate && a.name == b.name
  {
    if a.fromDate != b.fromDate {
      LexLeAntisymmetric(a.fromDate, b.fromDate);
    } else {
      LexLeAntisymmetric(a.name, b.name);
    }
  }

  /** The first row of the descending query: a live branch row that sorts
      last, the last one in table order among equal rows. */
  function Newest(rows: seq<Row>): (k: Option<nat>)
    ensures k.None? <==> forall i :: 0 <= i < |rows| ==> !Live(rows[i])
    ensures k.Some? ==> k.value < |rows| && Live(rows[k.value])
  {
    if rows == [] then None
    else
      var init := rows[..|rows| - 1];
      var k := Newest(init);
      var last := rows[|rows| - 1];
      assert forall i :: 0 <= i < |init| ==> init[i] == rows[i];
      if !Live(last) then k
      else if k.None? || RowLe(rows[k.value], last) then Some(|rows| - 1)
      else k
  }

  /** The chosen row sorts no earlier than any live branch row. */
  lemma {:induction false} NewestIsGreatest(rows: seq<Row>)
    requires Newest(rows).Some?
    ensures forall i :: 0 <= i < |rows| && Live(rows[i]) ==> RowLe(rows[i], rows[Newest(rows).value])
  {
    var init := rows[..|rows| - 1];
    var last := rows[|rows| - 1];
    var k := Newest(rows).value;
    var j := Newest(init);
    assert forall i :: 0 <= i < |init| ==> init[i] == rows[i];
    if j.Some? {
      NewestIsGreatest(init);
    }
    forall i | 0 <= i < |rows| && Live(rows[i]) ensures RowLe(rows[i], rows[k]) {
      if k == |rows| - 1 {
        if i == k {
          LexLeRefl(last.name);
        } else {
          RowLeTransitive(rows[i], rows[j.value], last);
        }
      } else if i == |rows| - 1 {
        RowLeTotal(rows[k], last);
      }
    }
  }

  /** The first query: a live `master` branch row exists; its remote is
      not looked at. */
  predicate HasLiveMaster(rows: seq<Row>) {
    exists i :: 0 <= i < |rows| && Live(rows[i]) && rows[i].name == "master"
  }

  /** The head branch's name, or `None` where the server panics for want of
      any live branch. */
  function ChooseHead(rows: seq<Row>): (h: Option<string>)
    ensures h.None? <==> forall i :: 0 <= i < |rows| ==> !Live(rows[i])
    ensures h.Some? ==> exists i :: 0 <= i < |rows| && Live(rows[i]) && rows[i].name == h.value
  {
    if HasLiveMaster(rows) then Some("master")
    else
      match Newest(rows)
      case None => None
      case Some(k) => Some(rows[k].name)
  }

  /** A live `master` always wins. */
  lemma MasterPreferred(rows: seq<Row>, i: nat)
    requires i < |rows| && Live(rows[i]) && rows[i].name == "master"
    ensures ChooseHead(rows) == Some("master")
  {
  }

  /** Without a live `master`, the head is the live branch updated last,
      the greatest name among those updated at the same time. */
  lemma HeadIsNewest(rows: seq<Row>)
    requires !HasLiveMaster(rows) && ChooseHead(rows).Some?
    ensures exists k :: 0 <= k < |rows| && Live(rows[k]) && rows[k].name == ChooseHead(rows).value
              && forall i :: 0 <= i < |rows| && Live(rows[i]) ==> RowLe(rows[i], rows[k])
  {
    NewestIsGreatest(rows);
    var k := Newest(rows).value;
    assert rows[k].name == ChooseHead(rows).value;
  }

  /** Any two greatest live rows have the same name: the order the query
      leaves unspecified among equal rows does not change the head. */
  lemma HeadDetermined(rows: seq<Row>, a: nat, b: nat)
    requires a < |rows| && b < |rows| && Live(rows[a]) && Live(rows[b])
    requires forall i :: 0 <= i < |rows| && Live(rows[i]) ==> RowLe(rows[i], rows[a])
    requires forall i :: 0 <= i < |rows| && Live(rows[i]) ==> RowLe(rows[i], rows[b])
    ensures rows[a].name == rows[b].name
  {
    RowLeAntisymmetric(rows[a], rows[b]);
  }

  /** The `Location` of the index page's redirect. */
  function Redirect(head: string): (loc: string)
    ensures |loc| == 10 + |head| && loc[..10] == "/_/latest/" && loc[10..] == head
  {
    "/_/latest/" + head
  }

  /** After the Python unit test's last update only br2 is live. */
  lemma HeadOfHistory()
    ensures ChooseHead(History4) == Some("br2")
  {
    assert !Live(History4[0]) && !Live(History4[1]) && !Live(History4[2]);
    assert Newest(History4[..3]) == None;
  }
}
