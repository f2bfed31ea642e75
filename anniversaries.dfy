/**
 * The text handling of the selected-anniversaries scraper: keeping the
 * anniversary paragraphs of a month, and splitting each anniversary into
 * (date, event) rows.
 */
module Anniversaries {
  import opened Wrappers
  import opened Strings

  predicate IsParen(c: char) {
    c == '(' || c == ')'
  }

  /** The index of the first parenthesis character in s, or -1. */
  function FindParen(s: string): (i: int)
    ensures -1 <= i < |s|
    ensures 0 <= i ==> IsParen(s[i])
    ensures forall k :: 0 <= k < |s| && (i == -1 || k < i) ==> !IsParen(s[k])
  {
    if s == [] then -1
    else if IsParen(s[0]) then 0
    else var j := FindParen(s[1..]); if j == -1 then -1 else j + 1
  }

  /**
   * Whether the ';' at i splits: the lookahead (?![^()]*\)) fails, so the
   * first parenthesis after it is '(' or there is none.
   */
  predicate IsSplitPoint(s: string, i: nat)
    requires i < |s|
  {
    s[i] == ';' && (var j := FindParen(s[i + 1..]); j == -1 || s[i + 1 + j] == '(')
  }

  /** re.split(r';(?![^()]*\))', s). */
  function SplitEvents(s: string): (pieces: seq<string>)
    ensures |pieces| >= 1
  {
    if s == [] then [""]
    else
      var rest := SplitEvents(s[1..]);
      if IsSplitPoint(s, 0) then [""] + rest
      else [[s[0]] + rest[0]] + rest[1..]
  }

  /** Moving one character into the string shifts its split points by one. */
  lemma SplitPointShift(s: string, i: nat)
    requires 0 < i < |s|
    ensures IsSplitPoint(s, i) == IsSplitPoint(s[1..], i - 1)
  {
    assert s[1..][i..] == s[i + 1..];
  }

  /** A string without split points is one event. */
  lemma {:induction false} SplitEventsWithoutSplitPoint(s: string)
    requires forall i :: 0 <= i < |s| ==> !IsSplitPoint(s, i)
    ensures SplitEvents(s) == [s]
  {
    if s != [] {
      forall i | 0 <= i < |s| - 1
        ensures !IsSplitPoint(s[1..], i)
      {
        SplitPointShift(s, i + 1);
      }
      SplitEventsWithoutSplitPoint(s[1..]);
      assert [s[0]] + s[1..] == s;
    }
  }

  /** The string splits at its first split point. */
  lemma {:induction false} SplitEventsAtFirstSplitPoint(a: string, b: string)
    requires IsSplitPoint(a + ";" + b, |a|)
    requires forall i :: 0 <= i < |a| ==> !IsSplitPoint(a + ";" + b, i)
    ensures SplitEvents(a + ";" + b) == [a] + SplitEvents(b)
  {
    var s := a + ";" + b;
    if a == [] {
      assert s[1..] == b;
    } else {
      assert s[1..] == a[1..] + ";" + b;
      SplitPointShift(s, |a|);
      forall i | 0 <= i < |a| - 1
        ensures !IsSplitPoint(a[1..] + ";" + b, i)
      {
        SplitPointShift(s, i + 1);
      }
      SplitEventsAtFirstSplitPoint(a[1..], b);
      assert [a[0]] + a[1..] == a;
    }
  }

  /** A ';' inside "( ... )", with no other parenthesis between it and the ')', never splits. */
  lemma ParenthesisedSemicolonStays(s: string, i: nat, j: nat)
    requires i < j < |s|
    requires s[i] == ';' && s[j] == ')'
    requires forall k :: i < k < j ==> !IsParen(s[k])
    ensures !IsSplitPoint(s, i)
  {
    var t := s[i + 1..];
    assert t[j - i - 1] == ')';
    assert forall k :: 0 <= k < j - i - 1 ==> t[k] == s[i + 1 + k];
  }

  /** Joining the events with ';' gives back the string. */
  lemma {:induction false} JoinSplitEvents(s: string)
    ensures Join(SplitEvents(s), ';') == s
  {
    if s != [] {
      var rest := SplitEvents(s[1..]);
      JoinSplitEvents(s[1..]);
      if IsSplitPoint(s, 0) {
        JoinConsEmpty(rest, ';');
      } else {
        JoinConsChar(s[0], rest, ';');
      }
      assert s == [s[0]] + s[1..];
    }
  }

  /** Without parentheses every ';' splits, as str.split(';') does. */
  lemma {:induction false} SplitEventsWithoutParens(s: string)
    requires '(' !in s && ')' !in s
    ensures SplitEvents(s) == Split(s, ';')
  {
    if s != [] {
      assert '(' !in s[1..] && ')' !in s[1..];
      SplitEventsWithoutParens(s[1..]);
      assert FindParen(s[1..]) == -1;
    }
  }

  /** str.partition(sep): before the first sep, whether it was found, after it; (s, "", "") without one. */
  function Partition(s: string, sep: char): (r: (string, string))
    ensures sep !in s ==> r == (s, "")
    ensures sep in s ==> r.0 + [sep] + r.1 == s && sep !in r.0
  {
    var i := Find(s, sep);
    if i == -1 then (s, "") else (s[..i], s[i + 1..])
  }

  /** One row of the anniversary table. */
  datatype Row = Row(date: string, event: string)

  /** The table: column headers and rows. */
  datatype Table = Table(columns: seq<string>, rows: seq<Row>)

  const Headers: seq<string> := ["Date", "Event"]

  /** Each event stripped. */
  function StripAll(events: seq<string>): (r: seq<string>)
    ensures |r| == |events|
    ensures forall k :: 0 <= k < |events| ==> r[k] == Strip(events[k])
  {
    seq(|events|, k requires 0 <= k < |events| => Strip(events[k]))
  }

  /** The rows one date contributes: one per non-empty (stripped) event. */
  function EventRows(date: string, events: seq<string>): seq<Row> {
    if events == [] then []
    else
      var last := events[|events| - 1];
      EventRows(date, events[..|events| - 1]) + (if last != "" then [Row(date, last)] else [])
  }

  /** The rows of one event more. */
  lemma EventRowsPrefix(date: string, events: seq<string>, j: nat)
    requires j < |events|
    ensures EventRows(date, events[..j + 1])
      == EventRows(date, events[..j]) + (if events[j] != "" then [Row(date, events[j])] else [])
  {
    assert events[..j + 1][..j] == events[..j];
  }

  /** The rows of one anniversary string. */
  function AnnRows(ann: string): seq<Row> {
    var parts := Partition(ann, ':');
    EventRows(Strip(parts.0), StripAll(SplitEvents(parts.1)))
  }

  /** The rows of the whole list, string after string. */
  function AnnTable(annList: seq<string>): seq<Row> {
    if annList == [] then []
    else AnnTable(annList[..|annList| - 1]) + AnnRows(annList[|annList| - 1])
  }

  /** The rows of one string more. */
  lemma AnnTablePrefix(annList: seq<string>, i: nat)
    requires i < |annList|
    ensures AnnTable(annList[..i + 1]) == AnnTable(annList[..i]) + AnnRows(annList[i])
  {
    assert annList[..i + 1][..i] == annList[..i];
  }

  /** The inner loop of anniversary_list_to_df: one row per event of one date that is not empty after stripping. */
  method AppendEventRows(table: seq<Row>, date: string, pieces: seq<string>) returns (table': seq<Row>)
    ensures table' == table + EventRows(date, StripAll(pieces))
  {
    table' := table;
    ghost var stripped := StripAll(pieces);
    for j := 0 to |pieces|
      invariant table' == table + EventRows(date, stripped[..j])
    {
      var event := Strip(pieces[j]);
      EventRowsPrefix(date, stripped, j);
      if event != "" {
        table' := table' + [Row(date, event)];
      }
    }
    assert stripped[..|pieces|] == stripped;
  }

  /** anniversary_list_to_df. */
  method AnniversaryListToDf(annList: seq<string>) returns (df: Table)
    ensures df.columns == ["Date", "Event"]
    ensures df.rows == AnnTable(annList)
  {
    var annTable: seq<Row> := [];
    for i := 0 to |annList|
      invariant annTable == AnnTable(annList[..i])
    {
      var ann := annList[i];
      var parts := Partition(ann, ':');
      var date := Strip(parts.0);
      annTable := AppendEventRows(annTable, date, SplitEvents(parts.1));
      AnnTablePrefix(annList, i);
    }
    assert annList[..|annList|] == annList;
    df := Table(Headers, annTable);
  }

  /** A row is the date with one of the events, for every event that is not empty. */
  lemma {:induction false} EventRowsMembership(date: string, events: seq<string>, row: Row)
    ensures row in EventRows(date, events) <==> row.date == date && row.event != "" && row.event in events
  {
    if events != [] {
      var front := events[..|events| - 1];
      assert events == front + [events[|events| - 1]];
      EventRowsMembership(date, front, row);
    }
  }

  /** Every event of a row is one of the pieces stripped, and is not empty. */
  lemma EventRowsStripped(date: string, pieces: seq<string>, row: Row)
    requires row in EventRows(date, StripAll(pieces))
    ensures row.date == date && row.event != "" && Strip(row.event) == row.event
    ensures exists k :: 0 <= k < |pieces| && Strip(pieces[k]) == row.event
  {
    EventRowsMembership(date, StripAll(pieces), row);
    var k :| 0 <= k < |pieces| && StripAll(pieces)[k] == row.event;
    StripIdempotent(pieces[k]);
  }

  /**
   * Every row of an anniversary has the stripped text before its first ':'
   * as its date, and a stripped, non-empty event.
   */
  lemma AnnRowsShape(ann: string, row: Row)
    requires row in AnnRows(ann)
    ensures ':' in ann && row.date == Strip(ann[..Find(ann, ':')])
    ensures row.event != "" && Strip(row.event) == row.event
  {
    var parts := Partition(ann, ':');
    EventRowsStripped(Strip(parts.0), SplitEvents(parts.1), row);
    if ':' !in ann {
      NoColonNoRows(ann);
    }
  }

  /** A string without ':' contributes no row. */
  lemma NoColonNoRows(ann: string)
    requires ':' !in ann
    ensures AnnRows(ann) == []
  {
    assert Partition(ann, ':') == (ann, "");
    assert SplitEvents("") == [""];
    assert StripAll([""]) == [""] by {
      assert Strip("") == "";
    }
    assert EventRows(Strip(ann), [""]) == EventRows(Strip(ann), []);
  }

  /** The rows keep the order of the strings: the table of a + b is a's rows, then b's. */
  lemma {:induction false} AnnTableAppend(a: seq<string>, b: seq<string>)
    ensures AnnTable(a + b) == AnnTable(a) + AnnTable(b)
  {
    if b != [] {
      var front := b[..|b| - 1];
      assert (a + b)[..|a + b| - 1] == a + front;
      AnnTableAppend(a, front);
    } else {
      assert a + b == a;
    }
  }

  /** The rows of one date keep the order of its events: the rows of e + f are e's, then f's. */
  lemma {:induction false} EventRowsAppend(date: string, e: seq<string>, f: seq<string>)
    ensures EventRows(date, e + f) == EventRows(date, e) + EventRows(date, f)
  {
    if f != [] {
      var front := f[..|f| - 1];
      assert (e + f)[..|e + f| - 1] == e + front;
      EventRowsAppend(date, e, front);
    } else {
      assert e + f == e;
    }
  }

  /** An anchor with an href: the href and the link's text. */
  datatype Link = Link(href: string, text: string)

  /** A paragraph: its first anchor with an href, if any, and ' '.join of its stripped strings. */
  datatype Paragraph = Paragraph(firstLink: Option<Link>, text: string)

  /** The keep rule: the first link points to "/wiki/<month>_..." and the text starts with the link's text. */
  predicate IsAnniversary(p: Paragraph, month: string) {
    p.firstLink.Some?
    && StartsWith(p.firstLink.value.href, "/wiki/" + month + "_")
    && StartsWith(p.text, p.firstLink.value.text)
  }

  /** The texts of the kept paragraphs, in order. */
  function KeptTexts(paragraphs: seq<Paragraph>, month: string): seq<string> {
    if paragraphs == [] then []
    else
      var last := paragraphs[|paragraphs| - 1];
      KeptTexts(paragraphs[..|paragraphs| - 1], month) + (if IsAnniversary(last, month) then [last.text] else [])
  }

  /** The filtering loop of extract_anniversaries, over the parsed paragraphs. */
  method ExtractAnniversaries(paragraphs: seq<Paragraph>, month: string) returns (annList: seq<string>)
    ensures annList == KeptTexts(paragraphs, month)
  {
    annList := [];
    for i := 0 to |paragraphs|
      invariant annList == KeptTexts(paragraphs[..i], month)
    {
      var para := paragraphs[i];
      var link := para.firstLink;
      if link.Some? && StartsWith(link.value.href, "/wiki/" + month + "_") {
        var strippedText := para.text;
        if StartsWith(strippedText, link.value.text) {
          annList := annList + [strippedText];
        }
      }
      assert paragraphs[..i + 1][..i] == paragraphs[..i];
    }
    assert paragraphs[..|paragraphs|] == paragraphs;
  }

  /** A text is kept exactly when some paragraph with that text passes the keep rule. */
  lemma {:induction false} KeptTextsMembership(paragraphs: seq<Paragraph>, month: string, t: string)
    ensures t in KeptTexts(paragraphs, month) <==>
      exists k :: 0 <= k < |paragraphs| && IsAnniversary(paragraphs[k], month) && paragraphs[k].text == t
  {
    if paragraphs != [] {
      var front := paragraphs[..|paragraphs| - 1];
      KeptTextsMembership(front, month, t);
      if exists k :: 0 <= k < |paragraphs| && IsAnniversary(paragraphs[k], month) && paragraphs[k].text == t {
        var k :| 0 <= k < |paragraphs| && IsAnniversary(paragraphs[k], month) && paragraphs[k].text == t;
        if k < |front| {
          assert front[k] == paragraphs[k];
        }
      }
    }
  }

  /** The kept texts keep paragraph order: those of a + b are a's, then b's. */
  lemma {:induction false} KeptTextsAppend(a: seq<Paragraph>, b: seq<Paragraph>, month: string)
    ensures KeptTexts(a + b, month) == KeptTexts(a, month) + KeptTexts(b, month)
  {
    if b != [] {
      var front := b[..|b| - 1];
      assert (a + b)[..|a + b| - 1] == a + front;
      KeptTextsAppend(a, front, month);
    } else {
      assert a + b == a;
    }
  }
}
