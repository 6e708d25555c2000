/**
 The link source adapter: the listing GoodLinks prints for every saved link
 (one line per link, `id TAB url TAB title`, lines separated by newlines) and
 the parser that turns the script's standard output back into link records.
 */
module Links {
  import opened Wrappers
  import opened Text

  type Id = String

  /** One saved link, as the source enumerates it. */
  datatype Link = Link(id: Id, url: String, title: String)

  /**
   What running the enumeration script returned. `stdout` is the text after
   Python's universal-newline translation (`\r\n` and `\r` already read as `\n`).
   */
  datatype ScriptRun = ScriptRun(returnCode: int, stdout: String, stderr: String)

  /** The two errors raised when the script fails. */
  datatype SourceError = NotReachable | ScriptFailed(stderr: String)

  /** The line the listing script emits for `l` (without its newline). */
  function Row(l: Link): (r: String)
  {
    l.id + ['\t'] + l.url + ['\t'] + l.title
  }

  /**
   The value the listing script returns for `links`: every row followed by a
   newline. `osascript` prints it with one more newline after it, which
   `strip()` removes again along with the last row's newline.
   */
  function Listing(links: seq<Link>): (r: String)
  {
    if links == [] then [] else Row(links[0]) + ['\n'] + Listing(links[1..])
  }

  /**
   A field the listing can carry unambiguously: no tab, and no newline or
   carriage return (text-mode reading turns a carriage return into a newline).
   */
  predicate CleanField(f: String)
  {
    '\t' !in f && '\n' !in f && '\r' !in f
  }

  /** The lines the parser walks: the stripped output split on newlines. */
  function Lines(stdout: String): (lines: seq<String>)
  {
    Split(Strip(stdout), '\n')
  }

  /** One line of the output: a record from its first three tab-separated fields, if it has them. */
  function ParseLine(line: String): (r: Option<Link>)
  {
    if line != [] then
      var parts := Split(line, '\t');
      if |parts| >= 3 then Some(Link(parts[0], parts[1], parts[2])) else None
    else None
  }

  /**
   A line yields a record exactly when it holds at least two tabs; the
   record's fields are then the first three tab-free fields of the line, which
   either ends after the title or continues with a further tab.
   */
  lemma ParseLineSpec(line: String)
    ensures var r := ParseLine(line);
            && (r.Some? <==> Occurrences(line, '\t') >= 2)
            && (r.Some? ==>
                  && '\t' !in r.value.id && '\t' !in r.value.url && '\t' !in r.value.title
                  && (line == Row(r.value) || StartsWith(line, Row(r.value) + ['\t'])))
  {
    if line != [] {
      var parts := Split(line, '\t');
      if |parts| >= 3 {
        SplitPieces(line, '\t');
        JoinThree(parts, '\t');
      }
    }
  }

  /** The first three pieces of a join, spelled out. */
  lemma JoinThree(parts: seq<String>, sep: char)
    requires |parts| >= 3
    ensures var head := parts[0] + [sep] + parts[1] + [sep] + parts[2];
            Join(parts, sep) == head || StartsWith(Join(parts, sep), head + [sep])
  {
    var head := parts[0] + [sep] + parts[1] + [sep] + parts[2];
    assert Join(parts, sep) == parts[0] + [sep] + (parts[1] + [sep] + Join(parts[2..], sep));
    if |parts| == 3 {
      assert Join(parts[2..], sep) == parts[2];
    } else {
      assert parts[2..][1..] == parts[3..];
      assert Join(parts[2..], sep) == parts[2] + [sep] + Join(parts[3..], sep);
      assert Join(parts, sep) == head + [sep] + Join(parts[3..], sep);
    }
  }

  /** What one line contributes to the records: its link, or nothing. */
  function RecordOf(line: String): (links: seq<Link>)
    ensures |links| <= 1
  {
    match ParseLine(line)
    case Some(l) => [l]
    case None => []
  }

  /** The records of `lines`, in line order (a line without a record contributes nothing). */
  function RecordsOf(lines: seq<String>): (links: seq<Link>)
    ensures |links| <= |lines|
  {
    if lines == [] then []
    else RecordsOf(lines[..|lines| - 1]) + RecordOf(lines[|lines| - 1])
  }

  /** Records follow line order: the records of a concatenation are the concatenated records. */
  lemma {:induction false} RecordsOfAppend(a: seq<String>, b: seq<String>)
    ensures RecordsOf(a + b) == RecordsOf(a) + RecordsOf(b)
  {
    if b == [] {
      assert a + b == a;
    } else {
      var ab := a + b;
      var init := b[..|b| - 1];
      var last := RecordOf(b[|b| - 1]);
      assert ab[..|ab| - 1] == a + init;
      assert ab[|ab| - 1] == b[|b| - 1];
      assert RecordsOf(ab) == RecordsOf(a + init) + last;
      RecordsOfAppend(a, init);
      assert RecordsOf(b) == RecordsOf(init) + last;
      assert (RecordsOf(a) + RecordsOf(init)) + last == RecordsOf(a) + (RecordsOf(init) + last);
    }
  }

  /** A record is produced exactly when some line parses to it. */
  lemma {:induction false} RecordsOfMember(lines: seq<String>, l: Link)
    ensures l in RecordsOf(lines) <==> exists j :: 0 <= j < |lines| && ParseLine(lines[j]) == Some(l)
  {
    if lines != [] {
      var init := lines[..|lines| - 1];
      RecordsOfMember(init, l);
      if l in RecordsOf(init) {
        var j :| 0 <= j < |init| && ParseLine(init[j]) == Some(l);
        assert lines[j] == init[j];
      }
      if j :| 0 <= j < |lines| && ParseLine(lines[j]) == Some(l) {
        if j < |init| {
          assert init[j] == lines[j];
        }
      }
    }
  }

  /**
   `get_goodlinks`: a failed script run raises, classified by its error
   output; otherwise every non-empty line of the stripped output with at least
   three tab-separated fields becomes a record, in line order.
   */
  method GetLinks(run: ScriptRun) returns (r: Result<seq<Link>, SourceError>)
    ensures run.returnCode != 0 ==>
              r.Failure? &&
              (r.error == NotReachable <==>
                 Contains(run.stderr, "No such process") || Contains(run.stderr, "not running")) &&
              (r.error.ScriptFailed? ==> r.error.stderr == run.stderr)
    ensures run.returnCode == 0 ==> r == Success(RecordsOf(Lines(run.stdout)))
  {
    if run.returnCode != 0 {
      if Contains(run.stderr, "No such process") || Contains(run.stderr, "not running") {
        return Failure(NotReachable);
      } else {
        return Failure(ScriptFailed(run.stderr));
      }
    }
    var lines := Split(Strip(run.stdout), '\n');
    var links: seq<Link> := [];
    var i := 0;
    while i < |lines|
      invariant 0 <= i <= |lines|
      invariant links == RecordsOf(lines[..i])
    {
      var line := lines[i];
      if line != [] {
        var parts := Split(line, '\t');
        if |parts| >= 3 {
          links := links + [Link(parts[0], parts[1], parts[2])];
        }
      }
      assert lines[..i + 1][..i] == lines[..i];
      i := i + 1;
    }
    assert lines[..i] == lines;
    return Success(links);
  }

  /** A row with clean fields parses back to its link. */
  lemma RowParses(l: Link)
    requires CleanField(l.id) && CleanField(l.url) && CleanField(l.title)
    ensures ParseLine(Row(l)) == Some(l)
  {
    var parts := [l.id, l.url, l.title];
    assert Join(parts, '\t') == Row(l) by {
      assert parts[1..] == [l.url, l.title];
      assert parts[1..][1..] == [l.title];
      assert Join(parts[1..], '\t') == l.url + ['\t'] + l.title;
    }
    SplitJoin(parts, '\t');
  }

  /** The rows of `links`, one per link. */
  function Rows(links: seq<Link>): (rows: seq<String>)
    ensures |rows| == |links|
  {
    seq(|links|, k requires 0 <= k < |links| => Row(links[k]))
  }

  lemma {:induction false} RecordsOfRows(links: seq<Link>)
    requires forall k :: 0 <= k < |links| ==>
               CleanField(links[k].id) && CleanField(links[k].url) && CleanField(links[k].title)
    ensures RecordsOf(Rows(links)) == links
  {
    if links != [] {
      var n := |links|;
      assert Rows(links)[..n - 1] == Rows(links[..n - 1]);
      RecordsOfRows(links[..n - 1]);
      RowParses(links[n - 1]);
      assert links[..n - 1] + [links[n - 1]] == links;
    }
  }

  lemma {:induction false} ListingIsJoin(links: seq<Link>)
    requires links != []
    ensures Listing(links) == Join(Rows(links), '\n') + ['\n']
  {
    if |links| > 1 {
      ListingIsJoin(links[1..]);
      assert Rows(links)[1..] == Rows(links[1..]);
    }
  }

  /**
   Parsing the listing of clean links gives those links back, provided that
   the stripping of the whole output does not eat into the first id or the
   last title: the first id must not start, and the last title must not end,
   with whitespace (an empty one counts as such, since the tab next to it is
   whitespace too). `EmptyLastTitleDropped` shows the proviso is needed.
   */
  lemma ListingRoundTrip(links: seq<Link>)
    requires forall k :: 0 <= k < |links| ==>
               CleanField(links[k].id) && CleanField(links[k].url) && CleanField(links[k].title)
    requires links != [] ==> links[0].id != [] && !IsSpace(links[0].id[0])
    requires links != [] ==> var t := links[|links| - 1].title; t != [] && !IsSpace(t[|t| - 1])
    ensures RecordsOf(Lines(Listing(links))) == links
  {
    if links == [] {
      assert Lines(Listing(links)) == [[]];
      assert RecordsOf([[]]) == RecordsOf([]) + RecordOf([]);
    } else {
      StripListing(links);
      forall k | 0 <= k < |links| ensures '\n' !in Rows(links)[k] {
        assert Rows(links)[k] == Row(links[k]);
      }
      SplitJoin(Rows(links), '\n');
      RecordsOfRows(links);
    }
  }

  /** Under the proviso of `ListingRoundTrip`, stripping the listing removes exactly its final newline. */
  lemma StripListing(links: seq<Link>)
    requires links != []
    requires links[0].id != [] && !IsSpace(links[0].id[0])
    requires var t := links[|links| - 1].title; t != [] && !IsSpace(t[|t| - 1])
    ensures Strip(Listing(links)) == Join(Rows(links), '\n')
  {
    var body := Join(Rows(links), '\n');
    var rows := Rows(links);
    ListingIsJoin(links);
    JoinBounds(rows, '\n');
    assert rows[0] == Row(links[0]);
    assert rows[|links| - 1] == Row(links[|links| - 1]);
    assert body[0] == links[0].id[0];
    assert body[|body| - 1] == links[|links| - 1].title[|links[|links| - 1].title| - 1];
    StripTrailing(body, '\n', IsSpace);
  }

  /** A join starts with its first piece and ends with its last one. */
  lemma {:induction false} JoinBounds(parts: seq<String>, sep: char)
    requires |parts| >= 1
    ensures StartsWith(Join(parts, sep), parts[0])
    ensures var j := Join(parts, sep); var p := parts[|parts| - 1];
            |p| <= |j| && j[|j| - |p|..] == p
  {
    if |parts| > 1 {
      JoinBounds(parts[1..], sep);
    }
  }

  /** The listing of one link with an empty title. */
  lemma ListingEmptyTitle()
    ensures Listing([Link("a", "u", "")]) == "a\tu\t\n"
  {
    assert [Link("a", "u", "")][1..] == [];
  }

  /** Stripping that listing removes the tab before the empty title along with the newline. */
  lemma StripEmptyTitle()
    ensures Strip("a\tu\t\n") == "a\tu"
  {
    assert TrimLeft("a\tu\t\n", IsSpace) == "a\tu\t\n";
    TrimRightSpace("a\tu\t", '\n', IsSpace);
    TrimRightSpace("a\tu", '\t', IsSpace);
    assert "a\tu" + ['\t'] == "a\tu\t";
    assert "a\tu\t" + ['\n'] == "a\tu\t\n";
  }

  /** What is left holds a single tab, too few for a record. */
  lemma OneTabNoRecord()
    ensures ParseLine("a\tu") == None
  {
    assert "a\tu"[1..] == "\tu";
    assert "\tu"[1..] == "u";
    assert "u"[1..] == "";
    assert Occurrences("a\tu", '\t') == 1;
  }

  /**
   The proviso of `ListingRoundTrip` cannot be dropped: when the last link has
   an empty title, stripping the output removes the tab before it, and that
   link is lost.
   */
  lemma EmptyLastTitleDropped()
    ensures RecordsOf(Lines(Listing([Link("a", "u", "")]))) == []
  {
    LinesEmptyTitle();
    OneTabNoRecord();
    assert ["a\tu"][..0] == [];
  }

  /** The parser sees a single line, with the last tab gone. */
  lemma LinesEmptyTitle()
    ensures Lines(Listing([Link("a", "u", "")])) == ["a\tu"]
  {
    ListingEmptyTitle();
    StripEmptyTitle();
    SplitSepFree("a\tu", '\n');
  }
}
