/**
 * The renderer from forum markdown to the MarkdownV2 style of the Telegram Bot API
 * ("Formatting options"): the escape codec, the decoder of upload tokens, and the
 * renderer's node handlers, each acting on children that are already rendered.
 */
module MarkdownRenderer {

  import opened Wrappers
  import opened Text

  // ---------------------------------------------------------------------------
  // Escape codec
  // ---------------------------------------------------------------------------

  /** The 18 characters MarkdownV2 reserves outside code entities. */
  const Reserved: seq<char> :=
    ['_', '*', '[', ']', '(', ')', '~', '`', '>', '#', '+', '-', '=', '|', '{', '}', '.', '!']

  /** Inside `pre` and `code` entities only the backtick and the backslash are reserved. */
  const CodeReserved: seq<char> := ['`', '\\']

  /** The characters a MarkdownV2 client treats as markup: the reserved ones of the mode. */
  function ToEscape(inCodeBlock: bool): seq<char>
  {
    if inCodeBlock then CodeReserved else Reserved
  }

  /**
   * The characters `escape` must escape for a client to read the text back: outside code,
   * the reserved ones and the backslash, which a client takes as the start of an escape.
   */
  const TextEscapes: seq<char> := Reserved + ['\\']

  /** One input character as it appears in the output, escaping the characters of `chars`. */
  function EscapeChar(c: char, chars: seq<char>): string
  {
    if c in chars then ['\\', c] else [c]
  }

  /** Reference definition of `escape` over the set `chars`: character by character, no lookahead. */
  function Escaped(text: string, chars: seq<char>): string
  {
    if |text| == 0 then "" else EscapeChar(text[0], chars) + Escaped(text[1..], chars)
  }

  lemma {:induction false} EscapedAppend(a: string, b: string, chars: seq<char>)
    ensures Escaped(a + b, chars) == Escaped(a, chars) + Escaped(b, chars)
  {
    if |a| > 0 {
      assert (a + b)[1..] == a[1..] + b;
      EscapedAppend(a[1..], b, chars);
    } else {
      assert a + b == b;
    }
  }

  /** `escape(text, inCodeBlock)` as written: the loop that builds `res`, over the mode's reserved set. */
  method Escape(text: string, inCodeBlock: bool) returns (res: string)
    ensures res == Escaped(text, ToEscape(inCodeBlock))
  {
    var toEscape := ToEscape(inCodeBlock);
    res := "";
    for i := 0 to |text|
      invariant res == Escaped(text[..i], toEscape)
    {
      var t := text[i];
      if t in toEscape {
        res := res + "\\";
      }
      res := res + [t];
      assert text[..i + 1] == text[..i] + [t];
      EscapedAppend(text[..i], [t], toEscape);
    }
    assert text[..|text|] == text;
  }

  /** Number of characters of `s` that occur in `chars`. */
  function CountIn(s: string, chars: seq<char>): nat
  {
    if |s| == 0 then 0 else (if s[0] in chars then 1 else 0) + CountIn(s[1..], chars)
  }

  /** The output is one character longer for each character that is escaped. */
  lemma {:induction false} EscapedLength(s: string, chars: seq<char>)
    ensures |Escaped(s, chars)| == |s| + CountIn(s, chars)
  {
    if |s| > 0 {
      EscapedLength(s[1..], chars);
    }
  }

  /** Inside code, a text without backticks and backslashes is copied unchanged. */
  lemma {:induction false} EscapedCodeIdentity(s: string)
    requires forall k :: 0 <= k < |s| ==> s[k] != '`' && s[k] != '\\'
    ensures Escaped(s, CodeReserved) == s
  {
    if |s| > 0 {
      EscapedCodeIdentity(s[1..]);
    }
  }

  /** Every character of `o` that is in `chars`, other than a backslash, has a backslash right before it. */
  predicate NoBareReserved(o: string, chars: seq<char>)
  {
    forall k :: 0 < k < |o| && o[k] in chars && o[k] != '\\' ==> o[k - 1] == '\\'
  }

  /** The output has a backslash right before each escaped character, the first one included. */
  lemma {:induction false} EscapedNoBareReserved(s: string, chars: seq<char>)
    ensures NoBareReserved(Escaped(s, chars), chars)
    ensures |s| > 0 ==> Escaped(s, chars)[0] == '\\' || Escaped(s, chars)[0] !in chars
  {
    if |s| > 0 {
      EscapedNoBareReserved(s[1..], chars);
      var o := Escaped(s, chars);
      var h := EscapeChar(s[0], chars);
      var t := Escaped(s[1..], chars);
      assert o == h + t;
      forall k | 0 < k < |o| && o[k] in chars && o[k] != '\\'
        ensures o[k - 1] == '\\'
      {
        if k >= |h| {
          var j := k - |h|;
          assert o[k] == t[j];
          if j == 0 {
            assert false;
          }
          assert o[k - 1] == t[j - 1];
        } else {
          assert h == ['\\', s[0]];
        }
      }
    }
  }

  /** Greedy inverse of `Escaped`: a backslash followed by a character of `chars` yields that character. */
  function Unescape(s: string, chars: seq<char>): string
    decreases |s|
  {
    if |s| == 0 then ""
    else if |s| >= 2 && s[0] == '\\' && s[1] in chars then [s[1]] + Unescape(s[2..], chars)
    else [s[0]] + Unescape(s[1..], chars)
  }

  /** Deleting the backslash inserted before each escaped character recovers the input. */
  lemma {:induction false} UnescapeEscaped(s: string, chars: seq<char>)
    ensures Unescape(Escaped(s, chars), chars) == s
  {
    if |s| > 0 {
      var rest := Escaped(s[1..], chars);
      UnescapeEscaped(s[1..], chars);
      if s[0] in chars {
        assert Escaped(s, chars) == ['\\', s[0]] + rest;
        assert (['\\', s[0]] + rest)[2..] == rest;
      } else {
        var o := [s[0]] + rest;
        assert Escaped(s, chars) == o;
        assert o[1..] == rest;
        if |rest| > 0 {
          EscapedNoBareReserved(s[1..], chars);
          assert !(s[0] == '\\' && rest[0] in chars);
        }
      }
    }
  }

  /** `escape` is injective, whatever the set of escaped characters. */
  lemma EscapeInjective(a: string, b: string, chars: seq<char>)
    requires Escaped(a, chars) == Escaped(b, chars)
    ensures a == b
  {
    UnescapeEscaped(a, chars);
    UnescapeEscaped(b, chars);
  }

  /**
   * How a MarkdownV2 client reads a text in one mode: a backslash makes the next character,
   * whichever it is, an ordinary one; an unescaped reserved character is markup, and so is
   * a backslash with nothing after it. None where the text holds such markup, the literal
   * text otherwise.
   */
  function ClientRead(s: string, inCodeBlock: bool): (r: Option<string>)
    decreases |s|
  {
    if |s| == 0 then Some("")
    else if s[0] == '\\' then
      if |s| == 1 then None
      else match ClientRead(s[2..], inCodeBlock)
        case None => None
        case Some(t) => Some([s[1]] + t)
    else if s[0] in ToEscape(inCodeBlock) then None
    else match ClientRead(s[1..], inCodeBlock)
      case None => None
      case Some(t) => Some([s[0]] + t)
  }

  /**
   * A text escaped over a set that holds every reserved character of the mode is read back
   * by the client as exactly that text, when the set also holds the backslash or the text
   * has none.
   */
  lemma {:induction false} ClientReadsEscaped(t: string, chars: seq<char>, inCodeBlock: bool)
    requires '\\' in chars || '\\' !in t
    requires forall c :: c in ToEscape(inCodeBlock) ==> c in chars
    ensures ClientRead(Escaped(t, chars), inCodeBlock) == Some(t)
  {
    if |t| > 0 {
      assert t == [t[0]] + t[1..];
      var rest := Escaped(t[1..], chars);
      ClientReadsEscaped(t[1..], chars, inCodeBlock);
      if t[0] in chars {
        var o := ['\\', t[0]] + rest;
        assert Escaped(t, chars) == o;
        assert o[2..] == rest;
      } else {
        var o := [t[0]] + rest;
        assert Escaped(t, chars) == o;
        assert o[1..] == rest;
        assert t[0] != '\\';
      }
    }
  }

  /** Inside code the source's set suffices: the client reads back exactly the text. */
  lemma ClientReadsCode(t: string)
    ensures ClientRead(Escaped(t, ToEscape(true)), true) == Some(t)
  {
    ClientReadsEscaped(t, CodeReserved, true);
  }

  /** Outside code the source's set suffices for a text without backslashes. */
  lemma ClientReadsTextWithoutBackslash(t: string)
    requires '\\' !in t
    ensures ClientRead(Escaped(t, ToEscape(false)), false) == Some(t)
  {
    ClientReadsEscaped(t, Reserved, false);
  }

  /** With the backslash added to the set, the client reads every escaped text back as it was. */
  lemma ClientReadsText(t: string)
    ensures ClientRead(Escaped(t, TextEscapes), false) == Some(t)
  {
    ClientReadsEscaped(t, TextEscapes, false);
  }

  // ---------------------------------------------------------------------------
  // Upload tokens: base 62 to hexadecimal
  // ---------------------------------------------------------------------------

  /** The character at position `i` of `string.digits + string.ascii_lowercase + string.ascii_uppercase`. */
  function AlphabetChar(i: nat): char
    requires i < 62
  {
    if i < 10 then ('0' as int + i) as char
    else if i < 36 then ('a' as int + i - 10) as char
    else ('A' as int + i - 36) as char
  }

  /** The alphabet of upload tokens. */
  function Alphabet(): (a: string)
    ensures |a| == 62 && forall i :: 0 <= i < 62 ==> a[i] == AlphabetChar(i)
  {
    seq(62, i requires 0 <= i < 62 => AlphabetChar(i))
  }

  /** The alphabet is `string.digits`, then `string.ascii_lowercase`, then `string.ascii_uppercase`. */
  lemma AlphabetIsDigitsLowerUpper()
    ensures Alphabet()[..10] == "0123456789"
    ensures Alphabet()[10..36] == "abcdefghijklmnopqrstuvwxyz"
    ensures Alphabet()[36..] == "ABCDEFGHIJKLMNOPQRSTUVWXYZ"
  {
    assert Alphabet()[..10] == seq(10, i requires 0 <= i < 10 => AlphabetChar(i));
    assert Alphabet()[10..36] == seq(26, i requires 0 <= i < 26 => AlphabetChar(i + 10));
    assert Alphabet()[36..] == seq(26, i requires 0 <= i < 26 => AlphabetChar(i + 36));
  }

  /** `alphabet.index(c)`: the first position of `c`, or None where Python raises ValueError. */
  function Digit62(c: char): (r: Option<nat>)
    ensures r.Some? ==> r.value < 62 && Alphabet()[r.value] == c && c !in Alphabet()[..r.value]
    ensures r.None? <==> c !in Alphabet()
  {
    if '0' <= c <= '9' then Some(c as int - '0' as int)
    else if 'a' <= c <= 'z' then Some(c as int - 'a' as int + 10)
    else if 'A' <= c <= 'Z' then Some(c as int - 'A' as int + 36)
    else None
  }

  predicate AllBase62(e: string)
  {
    forall k :: 0 <= k < |e| ==> Digit62(e[k]).Some?
  }

  function Pow(b: nat, n: nat): nat
  {
    if n == 0 then 1 else b * Pow(b, n - 1)
  }

  /** The number a base-62 numeral denotes: the sum of index(e[k]) * 62^(|e|-1-k). */
  function Base62Value(e: string): nat
    requires AllBase62(e)
  {
    if |e| == 0 then 0 else Digit62(e[0]).value * Pow(62, |e| - 1) + Base62Value(e[1..])
  }

  function HexDigit(d: nat): (c: char)
    requires d < 16
    ensures IsHexDigit(c)
  {
    if d < 10 then ('0' as int + d) as char else ('a' as int + d - 10) as char
  }

  /** The digits `hex` prints: `0`-`9` and lowercase `a`-`f`. */
  predicate IsHexDigit(c: char)
  {
    '0' <= c <= '9' || 'a' <= c <= 'f'
  }

  function HexDigitValue(c: char): nat
  {
    if '0' <= c <= '9' then c as int - '0' as int
    else if 'a' <= c <= 'f' then c as int - 'a' as int + 10
    else 0
  }

  /** `hex(n)[2:]`: lowercase hexadecimal digits of `n` without the `0x` prefix. */
  function Hex(n: nat): (r: string)
    ensures |r| > 0 && forall k :: 0 <= k < |r| ==> IsHexDigit(r[k])
    decreases n
  {
    if n < 16 then [HexDigit(n)] else Hex(n / 16) + [HexDigit(n % 16)]
  }

  /** The value a hexadecimal numeral denotes. */
  function HexValue(h: string): nat
  {
    if |h| == 0 then 0 else HexValue(h[..|h| - 1]) * 16 + HexDigitValue(h[|h| - 1])
  }

  /** `Hex` is a numeral for `n`, without leading zeros. */
  lemma {:induction false} HexCorrect(n: nat)
    ensures HexValue(Hex(n)) == n
    ensures Hex(n)[0] != '0' || n == 0
    decreases n
  {
    var h := Hex(n);
    if n < 16 {
      assert h[..0] == "";
    } else {
      HexCorrect(n / 16);
      assert h[..|h| - 1] == Hex(n / 16);
    }
  }

  /** Spec of `decodeBase62`: None where `alphabet.index` raises. */
  function Base62ToHex(e: string): Option<string>
  {
    if AllBase62(e) then Some(Hex(Base62Value(e))) else None
  }

  lemma {:induction false} Base62ValueCons(c: char, e: string)
    requires Digit62(c).Some? && AllBase62(e)
    ensures AllBase62([c] + e)
    ensures Base62Value([c] + e) == Digit62(c).value * Pow(62, |e|) + Base62Value(e)
  {
    assert ([c] + e)[1..] == e;
  }

  /** `decodeBase62(encoded)`: the loop over the reversed numeral. */
  method DecodeBase62(encoded: string) returns (r: Option<string>)
    ensures r == Base62ToHex(encoded)
  {
    var num := 0;
    var n := |encoded|;
    for idx := 0 to n
      invariant AllBase62(encoded[n - idx..])
      invariant num == Base62Value(encoded[n - idx..])
    {
      var c := encoded[n - 1 - idx];
      var i := Digit62(c);
      if i.None? {
        assert !AllBase62(encoded);
        return None;
      }
      Base62ValueCons(c, encoded[n - idx..]);
      assert encoded[n - 1 - idx..] == [c] + encoded[n - idx..];
      num := num + i.value * Pow(62, idx);
    }
    assert encoded[n - n..] == encoded;
    r := Some(Hex(num));
  }

  // ---------------------------------------------------------------------------
  // Node handlers of the renderer
  // ---------------------------------------------------------------------------

  /** `paragraph`, `block_text` and `heading`: the children joined with nothing between them. */
  function Paragraph(children: seq<string>): (r: string)
    ensures |r| == |Concat(children)|
  {
    Concat(children)
  }

  /**
   * `text`: a literal text run, escaped outside code over the source's set. Each reserved
   * character gets its backslash and the text can be recovered; a client reads it back as
   * exactly the text when the text holds no backslash.
   */
  function TextRun(text: string): (r: string)
    ensures NoBareReserved(r, ToEscape(false))
    ensures Unescape(r, ToEscape(false)) == text
    ensures '\\' !in text ==> ClientRead(r, false) == Some(text)
    ensures |r| == |text| + CountIn(text, ToEscape(false))
  {
    EscapedNoBareReserved(text, ToEscape(false));
    UnescapeEscaped(text, ToEscape(false));
    assert '\\' !in text ==> ClientRead(Escaped(text, ToEscape(false)), false) == Some(text) by {
      if '\\' !in text {
        ClientReadsTextWithoutBackslash(text);
      }
    }
    EscapedLength(text, ToEscape(false));
    Escaped(text, ToEscape(false))
  }

  /**
   * A text run as written misreads a backslash before a reserved character: `\*` comes out
   * as `\\*`, where the client takes the first backslash to escape the second and the `*`
   * is bare.
   */
  lemma TextRunAsWrittenMisreads()
    ensures TextRun("\\*") == "\\\\*"
    ensures ClientRead(TextRun("\\*"), false).None?
  {
    assert Escaped("*", Reserved) == "\\*";
    assert Escaped("\\*", Reserved) == "\\" + Escaped("*", Reserved);
    assert ClientRead("*", false).None?;
    assert ClientRead("\\\\*", false) == None;
  }

  /**
   * The text run the design intends: escaped over `TextEscapes`, the reserved characters
   * and the backslash, so that a client reads back exactly the text, whatever it holds.
   */
  function TextRunCorrected(text: string): (r: string)
    ensures ClientRead(r, false) == Some(text)
    ensures |r| == |text| + CountIn(text, TextEscapes)
  {
    ClientReadsText(text);
    EscapedLength(text, TextEscapes);
    Escaped(text, TextEscapes)
  }

  /** `emoji`: the table's value for a known `:name:`, the literal `:name:` otherwise. */
  function Emoji(children: seq<string>, table: map<string, string>): (r: string)
    ensures var key := ":" + Concat(children) + ":";
      (key in table ==> r == table[key]) && (key !in table ==> r == key)
  {
    var text := ":" + Concat(children) + ":";
    if text in table then table[text] else text
  }

  /** What `list_item` hands to `list`: the rendered children and the item's level. */
  datatype ListEntry = ListEntry(children: seq<string>, level: int)

  /** `list_item`: passes the children on with the level lowered by one. */
  function ListItem(children: seq<string>, level: int): (e: ListEntry)
    ensures e.children == children && e.level + 1 == level
  {
    ListEntry(children, level - 1)
  }

  /** `'  ' * level + '  ' * (depth - 1)`. */
  function Padding(level: int, depth: int): string
  {
    Repeat("  ", level) + Repeat("  ", depth - 1)
  }

  /** `str(n) + '\\.'` for an ordered list, `'\\-'` for an unordered one. */
  function Bullet(ordered: bool, n: int): string
  {
    if ordered then IntToString(n) + "\\." else "\\-"
  }

  /** The total number of children before an entry: where its numbering continues. */
  function ChildCount(entries: seq<ListEntry>): nat
  {
    if |entries| == 0 then 0 else ChildCount(entries[..|entries| - 1]) + |entries[|entries| - 1].children|
  }

  lemma ChildCountStep(entries: seq<ListEntry>, i: nat)
    requires i < |entries|
    ensures ChildCount(entries[..i + 1]) == ChildCount(entries[..i]) + |entries[i].children|
  {
    assert entries[..i + 1][..i] == entries[..i];
  }

  lemma BlocksStep(entries: seq<ListEntry>, i: nat, ordered: bool, depth: int, start: int)
    requires i < |entries|
    ensures Blocks(entries[..i + 1], ordered, depth, start)
      == Blocks(entries[..i], ordered, depth, start) + [EntryBlock(entries[i], ordered, depth, start + ChildCount(entries[..i]))]
  {
    assert entries[..i + 1][..i] == entries[..i];
    assert entries[..i + 1][i] == entries[i];
  }

  /** One rendered line: padding, bullet, a space, the child. */
  function ListLine(padding: string, ordered: bool, n: int, child: string): string
  {
    padding + Bullet(ordered, n) + " " + child
  }

  /** The lines of one entry, its first child numbered `n`. */
  function EntryLinesSpec(children: seq<string>, padding: string, ordered: bool, n: int): seq<string>
  {
    seq(|children|, j requires 0 <= j < |children| => ListLine(padding, ordered, n + j, children[j]))
  }

  /** The block of one entry, whose first child is numbered `first`. */
  function EntryBlock(e: ListEntry, ordered: bool, depth: int, first: int): string
  {
    Join("\n", EntryLinesSpec(e.children, Padding(e.level, depth), ordered, first))
  }

  /** The blocks of all entries, in order, each numbered on from the children of the entries before it. */
  function Blocks(entries: seq<ListEntry>, ordered: bool, depth: int, start: int): seq<string>
  {
    if |entries| == 0 then []
    else
      var init := entries[..|entries| - 1];
      Blocks(init, ordered, depth, start) + [EntryBlock(entries[|entries| - 1], ordered, depth, start + ChildCount(init))]
  }

  /**
   * Reference definition of `list`: the blocks of the entries joined by newlines, the `j`-th
   * child of the `i`-th entry numbered `start` plus the children of the entries before it plus `j`.
   */
  function ListSpec(entries: seq<ListEntry>, ordered: bool, depth: int, start: int): string
  {
    Join("\n", Blocks(entries, ordered, depth, start))
  }

  /** The inner loop of `list`: one line per child, numbered from `n` on. */
  method EntryLines(children: seq<string>, padding: string, ordered: bool, n: int)
    returns (block: string, next: int)
    ensures next == n + |children|
    ensures block == Join("\n", EntryLinesSpec(children, padding, ordered, n))
  {
    var cur: seq<string> := [];
    next := n;
    for j := 0 to |children|
      invariant |cur| == j && next == n + j
      invariant forall k :: 0 <= k < j ==> cur[k] == ListLine(padding, ordered, n + k, children[k])
    {
      var bullet := if ordered then IntToString(next) + "\\." else "\\-";
      next := next + 1;
      cur := cur + [padding + bullet + " " + children[j]];
    }
    assert cur == EntryLinesSpec(children, padding, ordered, n);
    block := Join("\n", cur);
  }

  /** `list`: the outer loop over the entries; the numbering runs on across entries. */
  method List(entries: seq<ListEntry>, ordered: bool, depth: int, start: Option<int>) returns (r: string)
    ensures r == ListSpec(entries, ordered, depth, start.GetOr(1))
  {
    var first := start.GetOr(1);
    var n := first;
    var res: seq<string> := [];
    var basePadding := Repeat("  ", depth - 1);
    for i := 0 to |entries|
      invariant n == first + ChildCount(entries[..i])
      invariant res == Blocks(entries[..i], ordered, depth, first)
    {
      var padding := Repeat("  ", entries[i].level) + basePadding;
      assert padding == Padding(entries[i].level, depth);
      var block;
      block, n := EntryLines(entries[i].children, padding, ordered, n);
      assert block == EntryBlock(entries[i], ordered, depth, first + ChildCount(entries[..i]));
      ChildCountStep(entries, i);
      BlocksStep(entries, i, ordered, depth, first);
      res := res + [block];
    }
    assert entries[..|entries|] == entries;
    r := Join("\n", res);
  }

  /** `strong`: the children enclosed in asterisks. */
  function Strong(children: seq<string>): (r: string)
    ensures |r| == |Concat(children)| + 2 && r[0] == '*' && r[|r| - 1] == '*'
    ensures r[1..|r| - 1] == Concat(children)
  {
    "*" + Concat(children) + "*"
  }

  /** `emphasis`: the children enclosed in underscores. */
  function Emphasis(children: seq<string>): (r: string)
    ensures |r| == |Concat(children)| + 2 && r[0] == '_' && r[|r| - 1] == '_'
    ensures r[1..|r| - 1] == Concat(children)
  {
    "_" + Concat(children) + "_"
  }

  /**
   * `block_code`: a fence, the first word of the info string as the language, and the code,
   * both escaped for code. None where `info.split()[0]` raises IndexError (an info of blanks).
   */
  function BlockCode(code: string, info: Option<string>): (r: Option<string>)
    ensures r.None? <==> info.Some? && FirstWord(info.value).None?
    ensures r.Some? ==> (exists lang ::
      && r.value == "```" + Escaped(lang, CodeReserved) + "\n" + Escaped(code, CodeReserved) + "\n```"
      && (info.None? ==> lang == "") && (info.Some? ==> Some(lang) == FirstWord(info.value)))
  {
    var lang := if info.None? then Some("") else FirstWord(info.value);
    match lang
    case None => None
    case Some(l) => Some("```" + Escaped(l, CodeReserved) + "\n" + Escaped(code, CodeReserved) + "\n```")
  }

  /** `[text](target)`, a MarkdownV2 inline link. */
  function LinkTo(text: string, target: string): string
  {
    "[" + text + "](" + target + ")"
  }

  /** `link`: `[text](link)`, the text being the children, else the title, else the target itself. */
  function Link(link: string, children: Option<seq<string>>, title: Option<string>): (r: string)
    ensures children.Some? ==> r == LinkTo(Concat(children.value), link)
    ensures children.None? && title.Some? ==> r == LinkTo(title.value, link)
    ensures children.None? && title.None? ==> r == LinkTo(link, link)
  {
    var text := match children
      case Some(c) => Concat(c)
      case None => if title.None? then Concat([link]) else title.value;
    ConcatSingle(link);
    LinkTo(text, link)
  }

  const UploadScheme: string := "upload://"
  const UploadBase: string := "https://cow.ceng.metu.edu.tr/uploads/default/"

  /** The caption of an image: its title, else its alt text, else `Image`. */
  function ImageTitle(alt: string, title: Option<string>): (t: string)
    ensures t != ""
    ensures title.Some? && title.value != "" ==> t == title.value
    ensures title.None? && alt != "" ==> t == alt
    ensures (title.Some? && title.value == "") || (title.None? && alt == "") ==> t == "Image"
  {
    var t := if title.None? then alt else title.value;
    if t == "" then "Image" else t
  }

  /**
   * The target of an `image` link. An `upload://TOKEN.EXT` source is rewritten to the public
   * uploads URL followed by the token in hexadecimal; any other source is kept. None where
   * the source raises: the rest of an upload source does not split into exactly two parts
   * at `.`, or the token is not base 62.
   */
  function ImageTarget(src: string): (r: Option<string>)
    ensures r.None? <==> StartsWith(src, UploadScheme) && !UploadRest(src[|UploadScheme|..])
  {
    if StartsWith(src, UploadScheme) then
      var parts := Split(src[|UploadScheme|..], '.');
      if |parts| != 2 then None
      else match Base62ToHex(parts[0])
        case None => None
        case Some(h) => Some(UploadBase + h)
    else Some(src)
  }

  /** `image`: a link to the image's target, its caption escaped as a text run is. */
  function Image(src: string, alt: string, title: Option<string>): (r: Option<string>)
    ensures r.None? <==> StartsWith(src, UploadScheme) && !UploadRest(src[|UploadScheme|..])
    ensures r.Some? ==> exists target :: r.value == LinkTo(TextRun(ImageTitle(alt, title)), target)
  {
    match ImageTarget(src)
    case None => None
    case Some(target) => Some(LinkTo(TextRun(ImageTitle(alt, title)), target))
  }

  /** The `image` the design intends: the same link, its caption escaped over `TextEscapes`. */
  function ImageCorrected(src: string, alt: string, title: Option<string>): (r: Option<string>)
    ensures r.None? <==> StartsWith(src, UploadScheme) && !UploadRest(src[|UploadScheme|..])
    ensures r.Some? ==> exists target :: r.value == LinkTo(TextRunCorrected(ImageTitle(alt, title)), target)
  {
    match ImageTarget(src)
    case None => None
    case Some(target) => Some(LinkTo(TextRunCorrected(ImageTitle(alt, title)), target))
  }

  /** What follows `upload://` in a source `image` can take apart: `TOKEN.EXT` with a base-62 token. */
  predicate UploadRest(rest: string)
  {
    var parts := Split(rest, '.');
    |parts| == 2 && AllBase62(parts[0])
  }

  /** An upload source with one dot and a base-62 token becomes a link to the token's hexadecimal name. */
  lemma ImageUpload(token: string, ext: string, alt: string, title: Option<string>)
    requires '.' !in token && '.' !in ext && AllBase62(token)
    ensures var src := UploadScheme + token + "." + ext;
      var target := UploadBase + Hex(Base62Value(token));
      && Image(src, alt, title) == Some(LinkTo(TextRun(ImageTitle(alt, title)), target))
      && ImageCorrected(src, alt, title) == Some(LinkTo(TextRunCorrected(ImageTitle(alt, title)), target))
  {
    UploadParts(token, ext);
  }

  /** How `image` takes an upload source apart: the scheme, then the token and the extension. */
  lemma UploadParts(token: string, ext: string)
    requires '.' !in token && '.' !in ext
    ensures var src := UploadScheme + token + "." + ext;
      StartsWith(src, UploadScheme) && Split(src[|UploadScheme|..], '.') == [token, ext]
  {
    var rest := token + "." + ext;
    var src := UploadScheme + token + "." + ext;
    assert src == UploadScheme + rest;
    assert src[..|UploadScheme|] == UploadScheme;
    assert src[|UploadScheme|..] == rest;
    SplitAround(token, ext, '.');
  }

  /** An ordinary source is kept as it is; only the caption is escaped. */
  lemma ImageOther(src: string, alt: string, title: Option<string>)
    requires !StartsWith(src, UploadScheme)
    ensures Image(src, alt, title) == Some(LinkTo(TextRun(ImageTitle(alt, title)), src))
    ensures ImageCorrected(src, alt, title) == Some(LinkTo(TextRunCorrected(ImageTitle(alt, title)), src))
  {
  }

  /** An upload source without a dot, or with more than one, makes `image` raise. */
  lemma ImageUploadMalformed(rest: string, alt: string, title: Option<string>)
    requires Count(rest, '.') != 1
    ensures Image(UploadScheme + rest, alt, title).None?
    ensures ImageCorrected(UploadScheme + rest, alt, title).None?
  {
    var src := UploadScheme + rest;
    assert src[|UploadScheme|..] == rest;
    SplitCount(rest, '.');
  }

  lemma SplitAround(a: string, b: string, c: char)
    requires c !in a && c !in b
    ensures Split(a + [c] + b, c) == [a, b]
  {
    SplitAfter(a, b, c);
    SplitNone(b, c);
  }

  /** `.replace('\n', '\n> ')`: every newline followed by a quote marker. */
  function QuoteNewlines(s: string): string
  {
    if |s| == 0 then "" else (if s[0] == '\n' then "\n> " else [s[0]]) + QuoteNewlines(s[1..])
  }

  /** Removes the quote marker after each newline: the inverse of `QuoteNewlines`. */
  function Unquote(s: string): string
    decreases |s|
  {
    if |s| == 0 then ""
    else if |s| >= 3 && s[..3] == "\n> " then "\n" + Unquote(s[3..])
    else [s[0]] + Unquote(s[1..])
  }

  /** Inserting the quote markers loses nothing: removing them gives the body back. */
  lemma {:induction false} UnquoteQuoteNewlines(s: string)
    ensures Unquote(QuoteNewlines(s)) == s
  {
    if |s| > 0 {
      UnquoteQuoteNewlines(s[1..]);
      var rest := QuoteNewlines(s[1..]);
      if s[0] == '\n' {
        assert QuoteNewlines(s) == "\n> " + rest;
        assert ("\n> " + rest)[..3] == "\n> ";
        assert ("\n> " + rest)[3..] == rest;
      } else {
        assert QuoteNewlines(s) == [s[0]] + rest;
        assert ([s[0]] + rest)[1..] == rest;
      }
    }
  }

  /** Every newline of the quoted body is followed by the marker `> `. */
  lemma {:induction false} QuoteNewlinesMarked(s: string)
    ensures var q := QuoteNewlines(s);
      forall k :: 0 <= k < |q| && q[k] == '\n' ==> k + 2 < |q| && q[k + 1] == '>' && q[k + 2] == ' '
    ensures |QuoteNewlines(s)| == |s| + 2 * Count(s, '\n')
  {
    if |s| > 0 {
      QuoteNewlinesMarked(s[1..]);
      var q := QuoteNewlines(s);
      var h := if s[0] == '\n' then "\n> " else [s[0]];
      var t := QuoteNewlines(s[1..]);
      assert q == h + t;
      forall k | 0 <= k < |q| && q[k] == '\n'
        ensures k + 2 < |q| && q[k + 1] == '>' && q[k + 2] == ' '
      {
        if k >= |h| {
          assert q[k] == t[k - |h|];
          assert q[k + 1] == t[k - |h| + 1] && q[k + 2] == t[k - |h| + 2];
        }
      }
    }
  }

  /** The first line of a rendered quote: links to the author's profile and to the quoted post. */
  function QuoteHeader(user: string, postId: int, topicId: int): string
  {
    "\\> [@" + user + "](https://cow.ceng.metu.edu.tr/u/" + user + ") in "
      + "[post](https://cow.ceng.metu.edu.tr/t/" + IntToString(topicId) + "/" + IntToString(postId) + "):\n"
  }

  /**
   * `quote`: a quoted post, headed by a link to its author and to the post, its body in
   * italics and every line of the body marked as quoted. The body can be recovered.
   */
  function Quote(children: seq<string>, user: string, postId: int, topicId: int): (r: string)
    ensures var h := |QuoteHeader(user, postId, topicId)|;
      && |r| >= h + 5
      && r[..h] == QuoteHeader(user, postId, topicId)
      && r[h..h + 4] == "\\> _" && r[|r| - 1] == '_'
      && r[h + 4..|r| - 1] == QuoteNewlines(Concat(children))
      && Unquote(r[h + 4..|r| - 1]) == Concat(children)
  {
    var hd := QuoteHeader(user, postId, topicId);
    var body := QuoteNewlines(Concat(children));
    var r := hd + "\\> _" + body + "_";
    assert r[|hd| + 4..|r| - 1] == body;
    UnquoteQuoteNewlines(Concat(children));
    r
  }

  /** `codespan`: the text enclosed in backticks, as it is. */
  function Codespan(text: string): (r: string)
    ensures |r| == |text| + 2 && r[0] == '`' && r[|r| - 1] == '`' && r[1..|r| - 1] == text
  {
    "`" + text + "`"
  }

  /** Rule kinds the renderer is called with, each with its already-rendered arguments. */
  datatype Node =
    | ParagraphNode(children: seq<string>)
    | TextNode(text: string)
    | EmojiNode(children: seq<string>)
    | ListNode(entries: seq<ListEntry>, ordered: bool, depth: int, start: Option<int>)
    | BlockTextNode(children: seq<string>)
    | HeadingNode(children: seq<string>, level: int)
    | StrongNode(children: seq<string>)
    | EmphasisNode(children: seq<string>)
    | BlockCodeNode(code: string, info: Option<string>)
    | LinkNode(link: string, linkChildren: Option<seq<string>>, title: Option<string>)
    | ImageNode(src: string, alt: string, imageTitle: Option<string>)
    | QuoteNode(children: seq<string>, user: string, postId: int, topicId: int)
    | CodespanNode(text: string)
    | UnhandledNode(name: string)

  /**
   * `_get_method` and the handler it returns: the method of that name, or for a rule the
   * renderer has no method for, the default handler, which renders the empty string.
   * None where the handler raises.
   */
  function Render(node: Node, emojiTable: map<string, string>): (r: Option<string>)
    ensures node.UnhandledNode? ==> r == Some("")
    ensures r.None? ==> node.BlockCodeNode? || node.ImageNode?
    ensures node.TextNode? ==> r.Some? && Unescape(r.value, ToEscape(false)) == node.text
    ensures node.TextNode? && '\\' !in node.text ==> r.Some? && ClientRead(r.value, false) == Some(node.text)
  {
    match node
    case ParagraphNode(c) => Some(Paragraph(c))
    case TextNode(t) => Some(TextRun(t))
    case EmojiNode(c) => Some(Emoji(c, emojiTable))
    case ListNode(es, o, d, s) => Some(ListSpec(es, o, d, s.GetOr(1)))
    case BlockTextNode(c) => Some(Concat(c))
    case HeadingNode(c, _) => Some(Concat(c))
    case StrongNode(c) => Some(Strong(c))
    case EmphasisNode(c) => Some(Emphasis(c))
    case BlockCodeNode(code, info) => BlockCode(code, info)
    case LinkNode(l, c, t) => Some(Link(l, c, t))
    case ImageNode(src, alt, t) => Image(src, alt, t)
    case QuoteNode(c, u, p, t) => Some(Quote(c, u, p, t))
    case CodespanNode(t) => Some(Codespan(t))
    case UnhandledNode(_) => Some("")
  }
}

