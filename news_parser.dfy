/**
 * The article value object: the `+1` classifier, the header block and a render that is
 * memoised on success and poisoned for good on failure.
 */
module NewsParser {

  import opened Wrappers
  import opened Text
  import MarkdownRenderer

  /** A `+1` reply: starts with `+1` and is shorter than ten characters. */
  function IsPlusOneMessage(msg: string): (r: bool)
    ensures r <==> 2 <= |msg| < 10 && msg[0] == '+' && msg[1] == '1'
  {
    StartsWith(msg, "+1") && |msg| < 10
  }

  /** The five lines of the header, before escaping. */
  function HeaderLines(username: string, displayname: string, topic: string, subject: string, date: string, plusOne: bool): seq<string>
  {
    [ "From: " + username + "(" + displayname + ")",
      "Newsgroup: " + topic,
      "Subject: " + subject,
      "Date: " + date,
      "is_plus_one: " + BoolToString(plusOne) ]
  }

  /** The header text: the five lines joined by newlines, as the f-string builds it. */
  function HeaderText(username: string, displayname: string, topic: string, subject: string, date: string, plusOne: bool): string
  {
    Join("\n", HeaderLines(username, displayname, topic, subject, date, plusOne))
  }

  /** `makeHeader`'s result: the header text escaped for a code block, inside a fenced block. */
  function Header(username: string, displayname: string, topic: string, subject: string, date: string, plusOne: bool): (r: string)
  {
    "```\n" + MarkdownRenderer.Escaped(HeaderText(username, displayname, topic, subject, date, plusOne), MarkdownRenderer.CodeReserved) + "\n```\n"
  }

  /** The header is a fenced block whose body a client reads back as the header text. */
  lemma HeaderFence(username: string, displayname: string, topic: string, subject: string, date: string, plusOne: bool)
    ensures var r := Header(username, displayname, topic, subject, date, plusOne);
      |r| >= 9 && r[..4] == "```\n" && r[|r| - 5..] == "\n```\n"
      && MarkdownRenderer.ClientRead(r[4..|r| - 5], true) == Some(HeaderText(username, displayname, topic, subject, date, plusOne))
  {
    var h := HeaderText(username, displayname, topic, subject, date, plusOne);
    var e := MarkdownRenderer.Escaped(h, MarkdownRenderer.CodeReserved);
    var r := "```\n" + e + "\n```\n";
    assert r[4..|r| - 5] == e;
    MarkdownRenderer.ClientReadsCode(h);
  }

  /** When no field holds a newline, the header text has exactly the five lines, in order. */
  lemma HeaderHasFiveLines(username: string, displayname: string, topic: string, subject: string, date: string, plusOne: bool)
    requires '\n' !in username && '\n' !in displayname && '\n' !in topic && '\n' !in subject && '\n' !in date
    ensures Split(HeaderText(username, displayname, topic, subject, date, plusOne), '\n')
      == HeaderLines(username, displayname, topic, subject, date, plusOne)
  {
    var ls := HeaderLines(username, displayname, topic, subject, date, plusOne);
    assert '\n' !in ls[0] by {
      assert ls[0] == "From: " + username + "(" + displayname + ")";
    }
    assert '\n' !in ls[4] by {
      assert BoolToString(plusOne) in {"True", "False"};
    }
    SplitJoin(ls, '\n');
  }

  /**
   * `newsArticle`. The date is kept as the already formatted string; the mention scan and the
   * Markdown conversion are outside the model and reach it as the outcomes passed to `Parse`.
   */
  class Article {
    var authorUsername: string
    var authorDisplayname: string
    var topic: string
    var subject: string
    var date: string
    var dcMarkdown: string
    var broken: bool
    var tgMarkdown: Option<string>
    var plusOneCache: Option<bool>
    /** How many times the mention scan has been started. */
    ghost var scans: nat
    /** How many times the `+1` classifier has been evaluated. */
    ghost var classifications: nat

    /** The `+1` cache: filled by exactly one evaluation of the classifier, and right. */
    ghost predicate CacheValid()
      reads this
    {
      && (plusOneCache.Some? ==> plusOneCache.value == IsPlusOneMessage(dcMarkdown))
      && classifications == (if plusOneCache.Some? then 1 else 0)
    }

    /**
     * The lifecycle: the cache is right; the scan has run exactly once once the article is
     * rendered or broken, and never before; and an article is never both rendered and broken.
     */
    ghost predicate Valid()
      reads this
    {
      && CacheValid()
      && scans == (if broken || tgMarkdown.Some? then 1 else 0)
      && !(broken && tgMarkdown.Some?)
    }

    constructor (author: (string, string), topic: string, subject: string, date: string, dcMarkdown: string)
      ensures Valid()
      ensures authorUsername == author.0 && authorDisplayname == author.1
      ensures this.topic == topic && this.subject == subject && this.date == date && this.dcMarkdown == dcMarkdown
      ensures !broken && tgMarkdown.None? && plusOneCache.None?
      ensures scans == 0 && classifications == 0
    {
      authorUsername := author.0;
      authorDisplayname := author.1;
      this.topic := topic;
      this.subject := subject;
      this.date := date;
      this.dcMarkdown := dcMarkdown;
      broken := false;
      tgMarkdown := None;
      plusOneCache := None;
      scans := 0;
      classifications := 0;
    }

    /** `newsArticle.isPlusOne`: classify on the first call, then answer from the cache. */
    method IsPlusOne() returns (r: bool)
      requires CacheValid()
      modifies this
      ensures r == IsPlusOneMessage(dcMarkdown)
      ensures plusOneCache == Some(r)
      ensures old(plusOneCache).Some? ==> r == old(plusOneCache).value && classifications == old(classifications)
      ensures old(plusOneCache).None? ==> classifications == old(classifications) + 1
      ensures CacheValid()
      ensures old(Valid()) ==> Valid()
      ensures authorUsername == old(authorUsername) && authorDisplayname == old(authorDisplayname)
      ensures topic == old(topic) && subject == old(subject) && date == old(date) && dcMarkdown == old(dcMarkdown)
      ensures broken == old(broken) && tgMarkdown == old(tgMarkdown) && scans == old(scans)
    {
      if plusOneCache.None? {
        plusOneCache := Some(IsPlusOneMessage(dcMarkdown));
        classifications := classifications + 1;
      }
      r := plusOneCache.value;
    }

    /** `makeHeader`: the fenced header, classifying the article if it has not been yet. */
    method MakeHeader() returns (r: string)
      requires CacheValid()
      modifies this
      ensures r == Header(authorUsername, authorDisplayname, topic, subject, date, IsPlusOneMessage(dcMarkdown))
      ensures plusOneCache == Some(IsPlusOneMessage(dcMarkdown))
      ensures old(plusOneCache).Some? ==> classifications == old(classifications)
      ensures old(plusOneCache).None? ==> classifications == old(classifications) + 1
      ensures CacheValid()
      ensures old(Valid()) ==> Valid()
      ensures authorUsername == old(authorUsername) && authorDisplayname == old(authorDisplayname)
      ensures topic == old(topic) && subject == old(subject) && date == old(date) && dcMarkdown == old(dcMarkdown)
      ensures broken == old(broken) && tgMarkdown == old(tgMarkdown) && scans == old(scans)
    {
      var plusOne := IsPlusOne();
      r := "```\n" + MarkdownRenderer.Escaped(HeaderText(authorUsername, authorDisplayname, topic, subject, date, plusOne), MarkdownRenderer.CodeReserved) + "\n```\n";
    }

    /**
     * `parseMessage`. `scanOk` says whether the mention scan returns normally; `paragraphs` is
     * what the conversion to Telegram Markdown yields, or None when it raises.
     */
    method ParseMessage(scanOk: bool, paragraphs: Option<seq<string>>)
      requires Valid()
      modifies this
      ensures old(broken) ==> unchanged(this)
      ensures !old(broken) ==> scans == old(scans) + 1
      ensures !old(broken) && (!scanOk || paragraphs.None?) ==>
        broken && tgMarkdown == old(tgMarkdown) && plusOneCache == old(plusOneCache) && classifications == old(classifications)
      ensures !old(broken) && scanOk && paragraphs.Some? ==>
        !broken && plusOneCache == Some(IsPlusOneMessage(dcMarkdown))
        && tgMarkdown == Some(Header(authorUsername, authorDisplayname, topic, subject, date, IsPlusOneMessage(dcMarkdown))
                              + Join("\n\n", paragraphs.value))
      ensures old(tgMarkdown).None? ==> Valid()
      ensures authorUsername == old(authorUsername) && authorDisplayname == old(authorDisplayname)
      ensures topic == old(topic) && subject == old(subject) && date == old(date) && dcMarkdown == old(dcMarkdown)
    {
      if broken {
        return;
      }
      scans := scans + 1;
      if !scanOk || paragraphs.None? {
        broken := true;
        return;
      }
      var hdr := MakeHeader();
      tgMarkdown := Some(hdr + Join("\n\n", paragraphs.value));
    }

    /** `parse`: render on the first call that finds no cached result, then return the cache. */
    method Parse(scanOk: bool, paragraphs: Option<seq<string>>) returns (r: Option<string>)
      requires Valid()
      modifies this
      ensures Valid()
      ensures r == tgMarkdown
      ensures old(tgMarkdown).Some? ==> unchanged(this)
      ensures old(broken) ==> unchanged(this)
      ensures old(tgMarkdown).None? && !old(broken) ==> scans == 1
      ensures old(tgMarkdown).None? && !old(broken) && scanOk && paragraphs.Some? ==>
        r == Some(Header(authorUsername, authorDisplayname, topic, subject, date, IsPlusOneMessage(dcMarkdown))
                  + Join("\n\n", paragraphs.value))
      ensures old(tgMarkdown).None? && !old(broken) && !(scanOk && paragraphs.Some?) ==> broken && r.None?
      ensures authorUsername == old(authorUsername) && authorDisplayname == old(authorDisplayname)
      ensures topic == old(topic) && subject == old(subject) && date == old(date) && dcMarkdown == old(dcMarkdown)
    {
      if tgMarkdown.None? {
        ParseMessage(scanOk, paragraphs);
      }
      r := tgMarkdown;
    }
  }
}
