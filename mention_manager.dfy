/**
 * The mention scanner: a single pass over the lines of a post that reports every line
 * holding a student number to the recipients registered for it.
 */
module MentionManager {

  import opened Wrappers
  import opened Text

  predicate IsDigit(c: char)
  {
    '0' <= c <= '9'
  }

  predicate AllDigits(s: string)
  {
    forall k :: 0 <= k < |s| ==> IsDigit(s[k])
  }

  /** `^e?\d{6,7}$`: an optional `e` followed by six or seven digits, and nothing else. */
  predicate IsStudentNumber(line: string)
  {
    var digits := if |line| > 0 && line[0] == 'e' then line[1..] else line;
    6 <= |digits| <= 7 && AllDigits(digits)
  }

  /** The pattern accepts exactly the strings of 6 or 7 digits and the strings `e` followed by 6 or 7 digits. */
  lemma StudentNumberForms(line: string)
    ensures IsStudentNumber(line) <==>
      (6 <= |line| <= 7 && AllDigits(line))
      || (7 <= |line| <= 8 && line[0] == 'e' && AllDigits(line[1..]))
  {
  }

  /** A mention event: who is told, which alias, where, under which header and at which line. */
  datatype Mention = Mention(recipient: int, alias: string, newsgroup: string, header: string, lineNo: int)

  /** `html.escape(s)`: `&`, `<`, `>`, `"` and `'` replaced by character references. */
  function HtmlEscape(s: string): (r: string)
    ensures |r| >= |s|
    ensures (forall k :: 0 <= k < |s| ==> s[k] !in "&<>\"'") ==> r == s
  {
    if |s| == 0 then "" else HtmlEscapeChar(s[0]) + HtmlEscape(s[1..])
  }

  function HtmlEscapeChar(c: char): string
  {
    if c == '&' then "&amp;"
    else if c == '<' then "&lt;"
    else if c == '>' then "&gt;"
    else if c == '"' then "&quot;"
    else if c == '\'' then "&#x27;"
    else [c]
  }

  /** The escaped text carries no markup: no `<`, `>` or quote characters. */
  lemma {:induction false} HtmlEscapeNoMarkup(s: string)
    ensures forall k :: 0 <= k < |HtmlEscape(s)| ==> HtmlEscape(s)[k] !in "<>\"'"
  {
    if |s| > 0 {
      HtmlEscapeNoMarkup(s[1..]);
      HtmlEscapeCharNoMarkup(s[0]);
      var h := HtmlEscapeChar(s[0]);
      var t := HtmlEscape(s[1..]);
      var o := HtmlEscape(s);
      assert o == h + t;
      forall k | 0 <= k < |o|
        ensures o[k] !in "<>\"'"
      {
        if k < |h| {
          assert o[k] == h[k];
        } else {
          assert o[k] == t[k - |h|];
        }
      }
    }
  }

  lemma HtmlEscapeCharNoMarkup(c: char)
    ensures forall k :: 0 <= k < |HtmlEscapeChar(c)| ==> HtmlEscapeChar(c)[k] !in "<>\"'"
  {
  }

  /** The character a reference produced by `html.escape` stands for, with the reference's length. */
  function RefAt(s: string): (r: Option<(char, nat)>)
    ensures r.Some? ==> 4 <= r.value.1 <= |s| && HtmlEscapeChar(r.value.0) == s[..r.value.1]
  {
    if |s| >= 5 && s[0] == '&' && s[1] == 'a' && s[2] == 'm' && s[3] == 'p' && s[4] == ';' then Some(('&', 5))
    else if |s| >= 4 && s[0] == '&' && s[1] == 'l' && s[2] == 't' && s[3] == ';' then Some(('<', 4))
    else if |s| >= 4 && s[0] == '&' && s[1] == 'g' && s[2] == 't' && s[3] == ';' then Some(('>', 4))
    else if |s| >= 6 && s[0] == '&' && s[1] == 'q' && s[2] == 'u' && s[3] == 'o' && s[4] == 't' && s[5] == ';' then Some(('"', 6))
    else if |s| >= 6 && s[0] == '&' && s[1] == '#' && s[2] == 'x' && s[3] == '2' && s[4] == '7' && s[5] == ';' then Some(('\'', 6))
    else None
  }

  /** Reverses `html.escape` on its own output. */
  function HtmlUnescape(s: string): string
    decreases |s|
  {
    if |s| == 0 then ""
    else match RefAt(s)
      case Some((c, n)) => [c] + HtmlUnescape(s[n..])
      case None => [s[0]] + HtmlUnescape(s[1..])
  }

  /** Unescaping the escape of one character and then `t` gives that character, then `t` unescaped. */
  lemma HtmlUnescapeChar(c: char, t: string)
    ensures HtmlUnescape(HtmlEscapeChar(c) + t) == [c] + HtmlUnescape(t)
  {
    var h := HtmlEscapeChar(c);
    var o := h + t;
    assert o[|h|..] == t;
    if c in "&<>\"'" {
      assert RefAt(o) == Some((c, |h|));
    } else {
      assert o[0] == c;
      assert RefAt(o) == None;
    }
  }

  /** Escaping loses nothing: the alias, newsgroup and header can be read back from the text. */
  lemma {:induction false} HtmlUnescapeEscape(s: string)
    ensures HtmlUnescape(HtmlEscape(s)) == s
  {
    if |s| > 0 {
      HtmlUnescapeEscape(s[1..]);
      HtmlUnescapeChar(s[0], HtmlEscape(s[1..]));
    }
  }

  /** The pieces of `mention_text` around its four fields. */
  const MentionOpen: string := "Your alias <b>"
  const BoldClose: string := "</b>"
  const InGroup: string := " has been mentioned in newsgroup: <b>"
  const WithHeader: string := " with header: <b>"
  const AtLine: string := " at line: "

  /** The message `sendMention` sends for one event. */
  function MentionText(m: Mention): string
  {
    MentionOpen + (HtmlEscape(m.alias) + (BoldClose + (InGroup + (HtmlEscape(m.newsgroup) + (BoldClose
      + (WithHeader + (HtmlEscape(m.header) + (BoldClose + (AtLine + (IntToString(m.lineNo) + "."))))))))))
  }

  /** The rest of `u` after the prefix `p`, or None when `u` does not start with `p`. */
  function AfterPrefix(u: string, p: string): Option<string>
  {
    if |p| <= |u| && u[..|p|] == p then Some(u[|p|..]) else None
  }

  lemma AfterPrefixOf(p: string, rest: string)
    ensures AfterPrefix(p + rest, p) == Some(rest)
  {
    assert (p + rest)[..|p|] == p;
    assert (p + rest)[|p|..] == rest;
  }

  /** `u` cut before its first `<`. */
  function UntilTag(u: string): (string, string)
  {
    if |u| == 0 then ("", "")
    else if u[0] == '<' then ("", u)
    else var (f, r) := UntilTag(u[1..]); ([u[0]] + f, r)
  }

  lemma {:induction false} UntilTagOf(e: string, rest: string)
    requires forall k :: 0 <= k < |e| ==> e[k] != '<'
    requires |rest| > 0 && rest[0] == '<'
    ensures UntilTag(e + rest) == (e, rest)
  {
    if |e| > 0 {
      assert (e + rest)[1..] == e[1..] + rest;
      UntilTagOf(e[1..], rest);
      assert [e[0]] + e[1..] == e;
    } else {
      assert e + rest == rest;
    }
  }

  /**
   * How a reader takes a bold field from the front of `u`: the text up to the first `<`,
   * which must open `</b>`, unescaped; None where `u` has no such field.
   */
  function ReadBold(u: string): Option<(string, string)>
  {
    var (f, r) := UntilTag(u);
    match AfterPrefix(r, BoldClose)
    case None => None
    case Some(rest) => Some((HtmlUnescape(f), rest))
  }

  /** An escaped field closed by `</b>` is read back as the field itself. */
  lemma ReadBoldOf(v: string, rest: string)
    ensures ReadBold(HtmlEscape(v) + (BoldClose + rest)) == Some((v, rest))
  {
    HtmlEscapeNoMarkup(v);
    var e := HtmlEscape(v);
    assert forall k :: 0 <= k < |e| ==> e[k] != '<';
    UntilTagOf(e, BoldClose + rest);
    AfterPrefixOf(BoldClose, rest);
    HtmlUnescapeEscape(v);
  }

  /**
   * How a reader takes a mention text apart: its alias, newsgroup and header, and what
   * follows `at line: `. None where the text does not have the mention layout.
   */
  function ReadMention(t: string): Option<(string, string, string, string)>
  {
    match AfterPrefix(t, MentionOpen)
    case None => None
    case Some(t1) =>
      match ReadBold(t1)
      case None => None
      case Some((alias, t2)) =>
        match AfterPrefix(t2, InGroup)
        case None => None
        case Some(t3) =>
          match ReadBold(t3)
          case None => None
          case Some((newsgroup, t4)) =>
            match AfterPrefix(t4, WithHeader)
            case None => None
            case Some(t5) =>
              match ReadBold(t5)
              case None => None
              case Some((header, t6)) =>
                match AfterPrefix(t6, AtLine)
                case None => None
                case Some(line) => Some((alias, newsgroup, header, line))
  }

  /**
   * The mention text loses nothing: a reader gets back the alias, the newsgroup and the
   * header as they were, whatever characters they hold, and the line number after them.
   */
  lemma ReadMentionText(m: Mention)
    ensures ReadMention(MentionText(m)) == Some((m.alias, m.newsgroup, m.header, IntToString(m.lineNo) + "."))
  {
    var tail := IntToString(m.lineNo) + ".";
    var t6 := AtLine + tail;
    var t5 := HtmlEscape(m.header) + (BoldClose + t6);
    var t4 := WithHeader + t5;
    var t3 := HtmlEscape(m.newsgroup) + (BoldClose + t4);
    var t2 := InGroup + t3;
    var t1 := HtmlEscape(m.alias) + (BoldClose + t2);
    AfterPrefixOf(MentionOpen, t1);
    ReadBoldOf(m.alias, t2);
    AfterPrefixOf(InGroup, t3);
    ReadBoldOf(m.newsgroup, t4);
    AfterPrefixOf(WithHeader, t5);
    ReadBoldOf(m.header, t6);
    AfterPrefixOf(AtLine, tail);
  }

  /** The events for one matching line: one per recipient, in the order the lookup returns them. */
  function LineMentions(cids: seq<int>, alias: string, newsgroup: string, header: string, lineNo: int): (r: seq<Mention>)
  {
    if |cids| == 0 then [] else [Mention(cids[0], alias, newsgroup, header, lineNo)] + LineMentions(cids[1..], alias, newsgroup, header, lineNo)
  }

  /**
   * Reference definition of the scan, one line at a time: `header` and `lineNo` are the
   * scanner's state when it reaches `lines[0]`.
   */
  function Scan(lines: seq<string>, newsgroup: string, lookup: string -> Option<seq<int>>, header: string, lineNo: int): seq<Mention>
  {
    if |lines| == 0 then []
    else
      var line := Strip(lines[0]);
      if IsStudentNumber(line) then
        LineMentions(lookup(line).GetOr([]), line, newsgroup, header, lineNo) + Scan(lines[1..], newsgroup, lookup, header, lineNo + 1)
      else
        Scan(lines[1..], newsgroup, lookup, line, 1)
  }

  /** A matching line contributes its events and counts one more line under the same header. */
  lemma ScanMatch(lines: seq<string>, i: nat, newsgroup: string, lookup: string -> Option<seq<int>>, header: string, lineNo: int, line: string)
    requires i < |lines| && line == Strip(lines[i]) && IsStudentNumber(line)
    ensures Scan(lines[i..], newsgroup, lookup, header, lineNo)
      == LineMentions(lookup(line).GetOr([]), line, newsgroup, header, lineNo) + Scan(lines[i + 1..], newsgroup, lookup, header, lineNo + 1)
  {
    assert lines[i..][0] == lines[i];
    assert lines[i..][1..] == lines[i + 1..];
  }

  /** Any other line becomes the header and restarts the count. */
  lemma ScanSkip(lines: seq<string>, i: nat, newsgroup: string, lookup: string -> Option<seq<int>>, header: string, lineNo: int, line: string)
    requires i < |lines| && line == Strip(lines[i]) && !IsStudentNumber(line)
    ensures Scan(lines[i..], newsgroup, lookup, header, lineNo) == Scan(lines[i + 1..], newsgroup, lookup, line, 1)
  {
    assert lines[i..][0] == lines[i];
    assert lines[i..][1..] == lines[i + 1..];
  }

  /** The inner loop of `parseMentions`: `sendMention` for each recipient of a matching line. */
  method SendMentions(cids: seq<int>, alias: string, newsgroup: string, header: string, lineNo: int)
    returns (sent: seq<Mention>)
    ensures sent == LineMentions(cids, alias, newsgroup, header, lineNo)
  {
    sent := [];
    var k := 0;
    while k < |cids|
      invariant 0 <= k <= |cids|
      invariant sent + LineMentions(cids[k..], alias, newsgroup, header, lineNo) == LineMentions(cids, alias, newsgroup, header, lineNo)
    {
      var m := Mention(cids[k], alias, newsgroup, header, lineNo);
      assert cids[k..][1..] == cids[k + 1..];
      assert LineMentions(cids[k..], alias, newsgroup, header, lineNo)
        == [m] + LineMentions(cids[k + 1..], alias, newsgroup, header, lineNo);
      sent := sent + [m];
      k := k + 1;
    }
    assert cids[k..] == [];
  }

  /** `parseMentions`: the loop over the lines of `content`, each mention emitted as an event. */
  method ParseMentions(content: string, newsgroup: string, lookup: string -> Option<seq<int>>) returns (events: seq<Mention>)
    ensures events == Scan(Split(content, '\n'), newsgroup, lookup, "", 0)
  {
    var lines := Split(content, '\n');
    var currentHeader := "";
    var lineNo := 0;
    events := [];
    ghost var total := Scan(lines, newsgroup, lookup, "", 0);
    assert lines[0..] == lines;
    for i := 0 to |lines|
      invariant events + Scan(lines[i..], newsgroup, lookup, currentHeader, lineNo) == total
    {
      var line := Strip(lines[i]);
      if IsStudentNumber(line) {
        ScanMatch(lines, i, newsgroup, lookup, currentHeader, lineNo, line);
        var cids := lookup(line);
        var sent := [];
        if cids.Some? {
          sent := SendMentions(cids.value, line, newsgroup, currentHeader, lineNo);
        }
        ghost var rest := Scan(lines[i + 1..], newsgroup, lookup, currentHeader, lineNo + 1);
        assert sent == LineMentions(cids.GetOr([]), line, newsgroup, currentHeader, lineNo);
        AppendAssoc(events, sent, rest);
        events := events + sent;
        lineNo := lineNo + 1;
        assert events + rest == total;
      } else {
        ScanSkip(lines, i, newsgroup, lookup, currentHeader, lineNo, line);
        currentHeader := line;
        lineNo := 1;
      }
    }
    assert lines[|lines|..] == [];
  }

  /** Whether the stripped line is one that `parseMentions` reports. */
  predicate Matches(raw: string)
  {
    IsStudentNumber(Strip(raw))
  }

  /** The index of the last line of `lines` that does not match, that is, the current header. */
  function LastHeader(lines: seq<string>): (r: Option<nat>)
    ensures r.Some? ==> r.value < |lines| && !Matches(lines[r.value])
  {
    if |lines| == 0 then None
    else if !Matches(lines[|lines| - 1]) then Some(|lines| - 1)
    else LastHeader(lines[..|lines| - 1])
  }

  /** The header found is the last non-matching line: every line after it matches, as does every line when none is found. */
  lemma {:induction false} LastHeaderIsLast(lines: seq<string>)
    ensures var r := LastHeader(lines);
      && (r.Some? ==> forall j :: r.value < j < |lines| ==> Matches(lines[j]))
      && (r.None? ==> forall j :: 0 <= j < |lines| ==> Matches(lines[j]))
  {
    if |lines| > 0 && Matches(lines[|lines| - 1]) {
      var init := lines[..|lines| - 1];
      LastHeaderIsLast(init);
      var r := LastHeader(init);
      assert LastHeader(lines) == r;
      var lo := if r.Some? then r.value + 1 else 0;
      forall j | lo <= j < |lines|
        ensures Matches(lines[j])
      {
        if j < |init| {
          assert Matches(init[j]);
          assert init[j] == lines[j];
        } else {
          assert j == |lines| - 1;
        }
      }
    }
  }

  /** The header in force at line `i`: the last non-matching line before it, or none yet. */
  function HeaderAt(lines: seq<string>, i: nat): string
    requires i <= |lines|
  {
    match LastHeader(lines[..i])
    case Some(h) => Strip(lines[h])
    case None => ""
  }

  /** The line number reported at line `i`: its distance from the header, or `i` before any header. */
  function LineNoAt(lines: seq<string>, i: nat): int
    requires i <= |lines|
  {
    match LastHeader(lines[..i])
    case Some(h) => i - h
    case None => i
  }

  /** What line `i` contributes, described without the scanner's running state. */
  function EventsAt(lines: seq<string>, i: nat, newsgroup: string, lookup: string -> Option<seq<int>>): seq<Mention>
    requires i < |lines|
  {
    var line := Strip(lines[i]);
    if IsStudentNumber(line) then LineMentions(lookup(line).GetOr([]), line, newsgroup, HeaderAt(lines, i), LineNoAt(lines, i))
    else []
  }

  /** The events of lines `i` onwards, in line order. */
  function EventsFrom(lines: seq<string>, i: nat, newsgroup: string, lookup: string -> Option<seq<int>>): seq<Mention>
    requires i <= |lines|
    decreases |lines| - i
  {
    if i == |lines| then [] else EventsAt(lines, i, newsgroup, lookup) + EventsFrom(lines, i + 1, newsgroup, lookup)
  }

  /** Moving past a matching line keeps the header and counts one more line; any other line becomes the header at distance 1. */
  lemma HeaderStep(lines: seq<string>, i: nat)
    requires i < |lines|
    ensures Matches(lines[i]) ==> HeaderAt(lines, i + 1) == HeaderAt(lines, i) && LineNoAt(lines, i + 1) == LineNoAt(lines, i) + 1
    ensures !Matches(lines[i]) ==> HeaderAt(lines, i + 1) == Strip(lines[i]) && LineNoAt(lines, i + 1) == 1
  {
    assert lines[..i + 1][..i] == lines[..i];
    assert lines[..i + 1][i] == lines[i];
  }

  lemma {:induction false} ScanFromState(lines: seq<string>, i: nat, newsgroup: string, lookup: string -> Option<seq<int>>)
    requires i <= |lines|
    ensures Scan(lines[i..], newsgroup, lookup, HeaderAt(lines, i), LineNoAt(lines, i)) == EventsFrom(lines, i, newsgroup, lookup)
    decreases |lines| - i, 1
  {
    if i < |lines| {
      ScanFromStateStep(lines, i, newsgroup, lookup);
    }
  }

  /** One step of `ScanFromState`: line `i` adds its events to those of the lines after it. */
  lemma {:induction false} ScanFromStateStep(lines: seq<string>, i: nat, newsgroup: string, lookup: string -> Option<seq<int>>)
    requires i < |lines|
    ensures Scan(lines[i..], newsgroup, lookup, HeaderAt(lines, i), LineNoAt(lines, i)) == EventsFrom(lines, i, newsgroup, lookup)
    decreases |lines| - i, 0
  {
    ScanFromState(lines, i + 1, newsgroup, lookup);
    HeaderStep(lines, i);
    var line := Strip(lines[i]);
    if IsStudentNumber(line) {
      ScanMatch(lines, i, newsgroup, lookup, HeaderAt(lines, i), LineNoAt(lines, i), line);
    } else {
      ScanSkip(lines, i, newsgroup, lookup, HeaderAt(lines, i), LineNoAt(lines, i), line);
    }
  }

  /**
   * The scan reports each matching line, in order, under the last non-matching line before it
   * (or the empty header), numbered by its distance from that line (or from the start, counting
   * from 0).
   */
  lemma ScanReportsEveryMatch(lines: seq<string>, newsgroup: string, lookup: string -> Option<seq<int>>)
    ensures Scan(lines, newsgroup, lookup, "", 0) == EventsFrom(lines, 0, newsgroup, lookup)
  {
    assert lines[..0] == [];
    assert lines[0..] == lines;
    ScanFromState(lines, 0, newsgroup, lookup);
  }

  /** A reported header is never itself a student number: it is the empty string or a non-matching line. */
  lemma HeaderNeverMatches(lines: seq<string>, i: nat)
    requires i <= |lines|
    ensures !IsStudentNumber(HeaderAt(lines, i))
    ensures LastHeader(lines[..i]).Some? ==> LineNoAt(lines, i) >= 1
  {
  }

  /** `e123456` on the first line is reported under the empty header at line 0. */
  lemma FirstLineExample(newsgroup: string, lookup: string -> Option<seq<int>>)
    ensures Scan(["e123456", "hello world"], newsgroup, lookup, "", 0)
      == LineMentions(lookup("e123456").GetOr([]), "e123456", newsgroup, "", 0)
  {
    var lines := ["e123456", "hello world"];
    assert Strip(lines[0]) == "e123456";
    assert IsStudentNumber("e123456");
    assert Strip(lines[1]) == "hello world";
    assert !IsStudentNumber("hello world");
    assert lines[1..] == ["hello world"];
    assert Scan(["hello world"], newsgroup, lookup, "", 1) == Scan([], newsgroup, lookup, "hello world", 1);
  }

  /** A number on the line after a header is reported under that header at line 1. */
  lemma HeaderExample(newsgroup: string, lookup: string -> Option<seq<int>>)
    ensures Scan(["Topic X", "e1234567", "more text"], newsgroup, lookup, "", 0)
      == LineMentions(lookup("e1234567").GetOr([]), "e1234567", newsgroup, "Topic X", 1)
  {
    var lines := ["Topic X", "e1234567", "more text"];
    assert Strip(lines[0]) == "Topic X";
    assert !IsStudentNumber("Topic X");
    assert Strip(lines[1]) == "e1234567";
    assert IsStudentNumber("e1234567");
    assert Strip(lines[2]) == "more text";
    assert !IsStudentNumber("more text");
    assert lines[1..] == ["e1234567", "more text"];
    assert lines[1..][1..] == ["more text"];
    assert Scan(lines, newsgroup, lookup, "", 0) == Scan(lines[1..], newsgroup, lookup, "Topic X", 1);
    assert Scan(["more text"], newsgroup, lookup, "Topic X", 2) == Scan([], newsgroup, lookup, "more text", 1);
  }
}
