/** `TriadFetcher._num` and the issue/item selection of `TriadFetcher.fetch`:
    picking the optimistic, most-likely and pessimistic estimates ("o", "m",
    "p") out of the number fields of an issue's project items. The
    GraphQL request and the cursor loop are replaced by a given sequence of
    pages. */
module TriadFetch {
  import opened Wrappers
  import opened Text

  /** The `field` of a field value: its name may be missing. */
  datatype FieldInfo = FieldInfo(name: Option<string>)

  /** A field-value node: its field (missing for non-number fields) and
      its number (missing or null). */
  datatype FieldValue = FieldValue(field: Option<FieldInfo>, number: Option<real>)

  /** A project item: the number of its project and its field values. */
  datatype ProjectItem = ProjectItem(project: int, values: seq<FieldValue>)

  datatype Issue = Issue(number: int, title: string, items: seq<ProjectItem>)

  /** One output row: the issue number and title and its three estimates. */
  datatype Triad = Triad(number: int, title: string, optimistic: real, mode: real, pessimistic: real)

  /** The field's name, or "" when the field or its name is missing. */
  function FieldName(v: FieldValue): string
  {
    if v.field.Some? && v.field.value.name.Some? then v.field.value.name.value else ""
  }

  /** The node answers `key`: its lower-cased name is `key` and it has a number. */
  predicate Matches(v: FieldValue, key: string)
  {
    Lower(FieldName(v)) == key && v.number.Some?
  }

  /** Position `i` holds the first node of `values` that answers `key`. */
  predicate IsFirst(values: seq<FieldValue>, key: string, i: int)
  {
    && 0 <= i < |values|
    && Matches(values[i], key)
    && forall j :: 0 <= j < i ==> !Matches(values[j], key)
  }

  /** `_num`: the number of the first node answering `key`, if any. */
  function Num(values: seq<FieldValue>, key: string): (r: Option<real>)
    ensures r.None? <==> forall i :: 0 <= i < |values| ==> !Matches(values[i], key)
    ensures forall i :: IsFirst(values, key, i) ==> r == values[i].number
  {
    if |values| == 0 then None
    else if Matches(values[0], key) then values[0].number
    else
      var r := Num(values[1..], key);
      assert forall i :: IsFirst(values, key, i) ==> IsFirst(values[1..], key, i - 1);
      r
  }

  /** A node whose field or name is missing never answers a non-empty key. */
  lemma NamelessNeverMatches(v: FieldValue, key: string)
    requires v.field.None? || v.field.value.name.None?
    requires |key| > 0
    ensures !Matches(v, key)
  {
    EmptyNeverMatches(key);
  }

  /** The three estimates of an item of project `project`, present only
      when all three fields are. */
  function ItemEstimates(item: ProjectItem, project: int): Option<(real, real, real)>
  {
    if item.project != project then None
    else
      var o := Num(item.values, "o");
      var m := Num(item.values, "m");
      var p := Num(item.values, "p");
      if o.Some? && m.Some? && p.Some? then Some((o.value, m.value, p.value)) else None
  }

  /** Position `i` holds the first item that yields estimates. */
  predicate IsFirstItem(items: seq<ProjectItem>, project: int, i: int)
  {
    && 0 <= i < |items|
    && ItemEstimates(items[i], project).Some?
    && forall j :: 0 <= j < i ==> ItemEstimates(items[j], project).None?
  }

  /** The estimates of the first qualifying item, if any. */
  function FirstEstimates(items: seq<ProjectItem>, project: int): (r: Option<(real, real, real)>)
    ensures r.None? <==> forall i :: 0 <= i < |items| ==> ItemEstimates(items[i], project).None?
    ensures forall i :: IsFirstItem(items, project, i) ==> r == ItemEstimates(items[i], project)
  {
    if |items| == 0 then None
    else if ItemEstimates(items[0], project).Some? then
      assert forall i :: IsFirstItem(items, project, i) ==> i == 0;
      ItemEstimates(items[0], project)
    else
      var r := FirstEstimates(items[1..], project);
      FirstItemShift(items, project);
      r
  }

  lemma FirstItemShift(items: seq<ProjectItem>, project: int)
    requires |items| > 0 && ItemEstimates(items[0], project).None?
    ensures forall i :: IsFirstItem(items, project, i) ==> IsFirstItem(items[1..], project, i - 1)
  {
    forall i | IsFirstItem(items, project, i)
      ensures IsFirstItem(items[1..], project, i - 1)
    {
      forall j | 0 <= j < i - 1
        ensures ItemEstimates(items[1..][j], project).None?
      {
        assert items[1..][j] == items[j + 1];
      }
    }
  }

  /** The row an issue contributes, if any. */
  function IssueTriad(iss: Issue, project: int): Option<Triad>
  {
    var e := FirstEstimates(iss.items, project);
    if e.Some? then Some(Triad(iss.number, iss.title, e.value.0, e.value.1, e.value.2)) else None
  }

  /** The rows of a list of issues: at most one per issue, in issue order. */
  function Rows(issues: seq<Issue>, project: int): (r: seq<Triad>)
    ensures |r| <= |issues|
  {
    if |issues| == 0 then []
    else
      var t := IssueTriad(issues[|issues| - 1], project);
      Rows(issues[..|issues| - 1], project) + (if t.Some? then [t.value] else [])
  }

  lemma RowsSnoc(issues: seq<Issue>, x: Issue, project: int, r: Option<Triad>)
    requires r == IssueTriad(x, project)
    ensures Rows(issues + [x], project) == Rows(issues, project) + (if r.Some? then [r.value] else [])
  {
    assert (issues + [x])[..|issues|] == issues;
  }

  /** Rows of a concatenation are the rows of the parts, in order. */
  lemma {:induction false} RowsAppend(a: seq<Issue>, b: seq<Issue>, project: int)
    ensures Rows(a + b, project) == Rows(a, project) + Rows(b, project)
  {
    if |b| == 0 {
      assert a + b == a;
    } else {
      var c := b[..|b| - 1];
      assert a + b == (a + c) + [b[|b| - 1]];
      assert (a + b)[..|a + b| - 1] == a + c;
      RowsAppend(a, c, project);
    }
  }

  /** Every row comes from an issue of the list, whose row it is. */
  lemma {:induction false} RowsFromIssues(issues: seq<Issue>, project: int, t: Triad)
    requires t in Rows(issues, project)
    ensures exists i :: 0 <= i < |issues| && IssueTriad(issues[i], project) == Some(t)
  {
    var p := issues[..|issues| - 1];
    if t in Rows(p, project) {
      RowsFromIssues(p, project, t);
      var i :| 0 <= i < |p| && IssueTriad(p[i], project) == Some(t);
      assert issues[i] == p[i];
    } else {
      assert IssueTriad(issues[|issues| - 1], project) == Some(t);
    }
  }

  /** The issues of all pages, in page order. */
  function Flatten(pages: seq<seq<Issue>>): (r: seq<Issue>)
  {
    if |pages| == 0 then [] else Flatten(pages[..|pages| - 1]) + pages[|pages| - 1]
  }

  /** No item before position `j` yields estimates. */
  predicate NoneBefore(items: seq<ProjectItem>, project: int, j: int)
  {
    forall i :: 0 <= i < j && i < |items| ==> ItemEstimates(items[i], project).None?
  }

  lemma NoneBeforeStep(items: seq<ProjectItem>, project: int, j: nat)
    requires j < |items| && NoneBefore(items, project, j)
    requires ItemEstimates(items[j], project).None?
    ensures NoneBefore(items, project, j + 1)
  {
  }

  /** The item loop of one issue: skip items of other projects, stop at the
      first item with all three estimates. */
  method Select(iss: Issue, project: int) returns (r: Option<Triad>)
    ensures r == IssueTriad(iss, project)
    ensures r.Some? ==> r.value.number == iss.number && r.value.title == iss.title
  {
    r := None;
    var j := 0;
    while j < |iss.items| && r.None?
      invariant 0 <= j <= |iss.items|
      invariant r.None? ==> NoneBefore(iss.items, project, j)
      invariant r.Some? ==> r == IssueTriad(iss, project)
      decreases |iss.items| - j
    {
      var it := iss.items[j];
      if it.project == project {
        var o := Num(it.values, "o");
        var m := Num(it.values, "m");
        var p := Num(it.values, "p");
        if o.Some? && m.Some? && p.Some? {
          r := Some(Triad(iss.number, iss.title, o.value, m.value, p.value));
          assert ItemEstimates(it, project) == Some((o.value, m.value, p.value));
          assert IsFirstItem(iss.items, project, j);
        } else {
          NoneBeforeStep(iss.items, project, j);
        }
      } else {
        NoneBeforeStep(iss.items, project, j);
      }
      j := j + 1;
    }
  }

  /** The issue loop of one page. */
  method FetchPage(issues: seq<Issue>, project: int) returns (out: seq<Triad>)
    ensures out == Rows(issues, project)
  {
    out := [];
    var k := 0;
    while k < |issues|
      invariant 0 <= k <= |issues|
      invariant out == Rows(issues[..k], project)
    {
      var r := Select(issues[k], project);
      RowsSnoc(issues[..k], issues[k], project, r);
      assert issues[..k + 1] == issues[..k] + [issues[k]];
      if r.Some? {
        out := out + [r.value];
      }
      k := k + 1;
    }
    assert issues[..k] == issues;
  }

  /** `fetch`: every page in turn, rows appended in page order; at most
      one row per issue. */
  method Fetch(pages: seq<seq<Issue>>, project: int) returns (out: seq<Triad>)
    ensures out == Rows(Flatten(pages), project)
    ensures |out| <= |Flatten(pages)|
  {
    out := [];
    var k := 0;
    while k < |pages|
      invariant 0 <= k <= |pages|
      invariant out == Rows(Flatten(pages[..k]), project)
    {
      var rows := FetchPage(pages[k], project);
      assert pages[..k + 1][..k] == pages[..k];
      assert Flatten(pages[..k + 1]) == Flatten(pages[..k]) + pages[k];
      RowsAppend(Flatten(pages[..k]), pages[k], project);
      out := out + rows;
      k := k + 1;
    }
    assert pages[..k] == pages;
  }

  /** An item of another project can sit anywhere in an issue's item list
      without changing which estimates the issue yields. */
  lemma {:induction false} OtherProjectIgnored(a: seq<ProjectItem>, x: ProjectItem,
                                               b: seq<ProjectItem>, project: int)
    requires x.project != project
    ensures FirstEstimates(a + [x] + b, project) == FirstEstimates(a + b, project)
  {
    if |a| == 0 {
      assert a + [x] + b == [x] + b;
      assert ([x] + b)[1..] == b;
      assert a + b == b;
    } else {
      assert (a + [x] + b)[0] == a[0];
      assert (a + b)[0] == a[0];
      assert (a + [x] + b)[1..] == a[1..] + [x] + b;
      assert (a + b)[1..] == a[1..] + b;
      OtherProjectIgnored(a[1..], x, b, project);
    }
  }

  /** Field names are matched in any letter case, a null number is passed
      over, and the first answering node wins. */
  lemma NumExample()
    ensures var values := [
        FieldValue(Some(FieldInfo(Some("O"))), None),
        FieldValue(None, Some(9.0)),
        FieldValue(Some(FieldInfo(Some("O"))), Some(2.0)),
        FieldValue(Some(FieldInfo(Some("o"))), Some(3.0))];
      Num(values, "o") == Some(2.0) && Num(values, "m") == None
  {
    var values := [
        FieldValue(Some(FieldInfo(Some("O"))), None),
        FieldValue(None, Some(9.0)),
        FieldValue(Some(FieldInfo(Some("O"))), Some(2.0)),
        FieldValue(Some(FieldInfo(Some("o"))), Some(3.0))];
    LowerMatches("O", "o");
    LowerMatches("o", "o");
    LowerMatches("O", "m");
    LowerMatches("o", "m");
    assert Lower("") == "";
    assert IsFirst(values, "o", 2);
  }
}
