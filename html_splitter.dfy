/**
 * The HTML message splitter: cuts a stream of HTML events into messages of at most 4095
 * characters, closing the open tags at every cut and reopening them in the next message.
 */
module HtmlSplitter {

  import opened Text

  /** The largest message the splitter emits. */
  const Limit := 4095

  /** An open tag: its name and its attribute text. */
  datatype Tag = Tag(name: string, attrs: string)

  function OpenTag(t: Tag): string
  {
    "<" + t.name + t.attrs + ">"
  }

  function CloseTag(name: string): string
  {
    "</" + name + ">"
  }

  /** The opening tags of the stack, bottom first. */
  function Openings(tags: seq<Tag>): (r: seq<string>)
    ensures |r| == |tags| && forall i :: 0 <= i < |tags| ==> r[i] == OpenTag(tags[i])
  {
    if |tags| == 0 then [] else Openings(tags[..|tags| - 1]) + [OpenTag(tags[|tags| - 1])]
  }

  /** The closing tags of the stack, top first. */
  function Closings(tags: seq<Tag>): (r: seq<string>)
    ensures |r| == |tags| && forall i :: 0 <= i < |tags| ==> r[i] == CloseTag(tags[|tags| - 1 - i].name)
  {
    if |tags| == 0 then [] else Closings(tags[1..]) + [CloseTag(tags[0].name)]
  }

  /** `sum(len(item) for item in parts)`. */
  function SumLen(parts: seq<string>): nat
  {
    if |parts| == 0 then 0 else SumLen(parts[..|parts| - 1]) + |parts[|parts| - 1]|
  }

  lemma {:induction false} SumLenConcat(parts: seq<string>)
    ensures SumLen(parts) == |Concat(parts)|
  {
    if |parts| > 0 {
      SumLenConcat(parts[..|parts| - 1]);
    }
  }

  lemma SumLenAppend(parts: seq<string>, p: string)
    ensures SumLen(parts + [p]) == SumLen(parts) + |p|
  {
    assert (parts + [p])[..|parts|] == parts;
  }

  /** `getOpeningTagsLen`: the length of the opening tags. */
  function OpeningLen(tags: seq<Tag>): (n: nat)
    ensures n == |Concat(Openings(tags))|
  {
    SumLenConcat(Openings(tags));
    SumLen(Openings(tags))
  }

  /** `getClosingTagsLen`: the length of the closing tags. */
  function ClosingLen(tags: seq<Tag>): (n: nat)
    ensures n == |Concat(Closings(tags))|
  {
    SumLenConcat(Closings(tags));
    SumLen(Closings(tags))
  }

  /** The splitter's state: the tag stack, the finished messages and the pieces of the current one. */
  datatype State = State(openTags: seq<Tag>, parsed: seq<string>, current: seq<string>)

  /** `getCurrentMsgLen`. */
  function CurrentLen(s: State): (n: nat)
    ensures n == |Concat(s.current)|
  {
    SumLenConcat(s.current);
    SumLen(s.current)
  }

  /** `getTotalMsgLen`: what the current message would measure if it were finished now. */
  function TotalLen(s: State): nat
  {
    ClosingLen(s.openTags) + CurrentLen(s)
  }

  /** Every finished message and the current one, once finished, fit the limit. */
  predicate Bounded(s: State)
  {
    TotalLen(s) <= Limit && forall k :: 0 <= k < |s.parsed| ==> |s.parsed[k]| <= Limit
  }

  /** `finishMsg`: close the open tags, emit the message, and start the next one by reopening them. */
  function Finish(s: State): State
  {
    State(s.openTags, s.parsed + [Concat(s.current + Closings(s.openTags))], Openings(s.openTags))
  }

  /**
   * The emitted message is the current pieces followed by the closing tags, so it is as long as
   * the total; the next message starts with the opening tags alone, and only it and the new
   * message change.
   */
  lemma FinishProperties(s: State)
    ensures var f := Finish(s);
      && f.openTags == s.openTags
      && |f.parsed| == |s.parsed| + 1 && f.parsed[..|s.parsed|] == s.parsed
      && f.parsed[|s.parsed|] == Concat(s.current) + Concat(Closings(s.openTags))
      && |f.parsed[|s.parsed|]| == TotalLen(s)
      && TotalLen(f) == OpeningLen(s.openTags) + ClosingLen(s.openTags)
      && (Bounded(s) && OpeningLen(s.openTags) + ClosingLen(s.openTags) <= Limit ==> Bounded(f))
  {
    ConcatSplit(s.current, Closings(s.openTags));
    var f := Finish(s);
    assert f.parsed[..|s.parsed|] == s.parsed;
  }

  /** `handle_entityref`: finish first when the reference would not fit, then append it. */
  function EntityRef(s: State, name: string): State
  {
    var unescaped := "&" + name + ";";
    var s1 := if CurrentLen(s) + ClosingLen(s.openTags) + |unescaped| > Limit then Finish(s) else s;
    s1.(current := s1.current + [unescaped])
  }

  /**
   * The reference is appended whole, after a cut exactly when it would have pushed the current
   * message past the limit; a bounded state stays bounded when the reference fits beside the
   * tags.
   */
  lemma EntityRefProperties(s: State, name: string)
    ensures var e := EntityRef(s, name);
      var unescaped := "&" + name + ";";
      var cut := TotalLen(s) + |unescaped| > Limit;
      && e.openTags == s.openTags
      && e.current[|e.current| - 1] == unescaped
      && (cut ==> e.parsed == Finish(s).parsed && e.current == Openings(s.openTags) + [unescaped])
      && (!cut ==> e.parsed == s.parsed && e.current == s.current + [unescaped])
      && (Bounded(s) && OpeningLen(s.openTags) + ClosingLen(s.openTags) + |unescaped| <= Limit ==> Bounded(e))
  {
    var e := EntityRef(s, name);
    var unescaped := "&" + name + ";";
    FinishProperties(s);
    var s1 := if TotalLen(s) + |unescaped| > Limit then Finish(s) else s;
    SumLenAppend(s1.current, unescaped);
    SumLenConcat(s1.current);
    SumLenConcat(e.current);
  }

  function Max(a: int, b: int): int
  {
    if a >= b then a else b
  }

  /** The room the tags leave for text: positive is what `handle_data` needs to make progress. */
  predicate Roomy(s: State)
  {
    OpeningLen(s.openTags) + ClosingLen(s.openTags) < Limit
  }

  /** One round of `handle_data`'s loop: the state after it, and the piece of `data` it appended. */
  function DataStep(s: State, data: string): (r: (State, string))
    requires Roomy(s)
    ensures r.0.openTags == s.openTags
    ensures r.1 <= data
  {
    var remaining := Limit - TotalLen(s);
    var s1 := if remaining <= 0 then Finish(s) else s;
    var taking := if Max(remaining, 0) <= |data| then Max(remaining, 0) else |data|;
    var piece := data[..taking];
    (s1.(current := s1.current + [piece]), piece)
  }

  /** `handle_data`'s loop: the state it leaves and the pieces it appended, in order. */
  function Data(s: State, data: string): (r: (State, seq<string>))
    requires Roomy(s)
    ensures r.0.openTags == s.openTags
    decreases |data|, if TotalLen(s) >= Limit then 1 else 0
  {
    if |data| == 0 then (s, [])
    else
      var (s1, piece) := DataStep(s, data);
      DataStepProgress(s, data);
      var (s2, pieces) := Data(s1, data[|piece|..]);
      (s2, [piece] + pieces)
  }

  /** A round either consumes data or, by cutting, makes room for the next round. */
  lemma DataStepProgress(s: State, data: string)
    requires Roomy(s) && |data| > 0
    ensures var (s1, piece) := DataStep(s, data);
      |piece| > 0 || (|piece| == 0 && TotalLen(s) >= Limit && TotalLen(s1) < Limit)
  {
    var (s1, piece) := DataStep(s, data);
    if |piece| == 0 {
      FinishProperties(s);
      SumLenAppend(Finish(s).current, piece);
    }
  }

  /** `Data` after one round: the rest of the data is handed on from the state that round leaves. */
  lemma DataUnfold(s: State, data: string)
    requires Roomy(s) && |data| > 0
    ensures var (s1, piece) := DataStep(s, data);
      && Roomy(s1)
      && Data(s, data).0 == Data(s1, data[|piece|..]).0
      && Data(s, data).1 == [piece] + Data(s1, data[|piece|..]).1
      && (|piece| > 0 || (TotalLen(s) >= Limit && TotalLen(s1) < Limit))
  {
    DataStepProgress(s, data);
  }

  /** `handle_data` loses and reorders nothing: the appended pieces make up the data. */
  lemma {:induction false} DataPieces(s: State, data: string)
    requires Roomy(s)
    ensures Concat(Data(s, data).1) == data
    decreases |data|, if TotalLen(s) >= Limit then 1 else 0
  {
    if |data| > 0 {
      var (s1, piece) := DataStep(s, data);
      DataUnfold(s, data);
      DataPieces(s1, data[|piece|..]);
      var pieces := Data(s1, data[|piece|..]).1;
      ConcatSplit([piece], pieces);
      ConcatSingle(piece);
      assert data == piece + data[|piece|..];
    }
  }

  /** One round keeps a bounded state bounded: a piece never takes more than the room left. */
  lemma DataStepBounded(s: State, data: string)
    requires Roomy(s) && Bounded(s)
    ensures Bounded(DataStep(s, data).0)
  {
    var remaining := Limit - TotalLen(s);
    FinishProperties(s);
    var s1 := if remaining <= 0 then Finish(s) else s;
    var piece := DataStep(s, data).1;
    SumLenAppend(s1.current, piece);
  }

  /** `handle_data` keeps every message, finished or current, within the limit. */
  lemma {:induction false} DataBounded(s: State, data: string)
    requires Roomy(s) && Bounded(s)
    ensures Bounded(Data(s, data).0)
    decreases |data|, if TotalLen(s) >= Limit then 1 else 0
  {
    if |data| > 0 {
      var (s1, piece) := DataStep(s, data);
      DataStepProgress(s, data);
      DataStepBounded(s, data);
      DataBounded(s1, data[|piece|..]);
    }
  }

  /** How `handle_endtag` ends: the tag is closed, or the assertion or the pop raises. */
  datatype EndOutcome = Closed | Mismatch | EmptyStack

  /** `handle_endtag`: pop the stack; when the popped tag is the one named, append its closing tag. */
  function EndTag(s: State, tag: string): (State, EndOutcome)
  {
    if |s.openTags| == 0 then (s, EmptyStack)
    else
      var popped := s.openTags[|s.openTags| - 1].name;
      var s1 := s.(openTags := s.openTags[..|s.openTags| - 1]);
      if tag != popped then (s1, Mismatch)
      else (s1.(current := s1.current + [CloseTag(tag)]), Closed)
  }

  /**
   * Closing the top tag moves its closing tag from the stack's reckoning into the current
   * message, so the total does not change and a bounded state stays bounded.
   */
  lemma EndTagKeepsTotal(s: State, tag: string)
    requires EndTag(s, tag).1 == Closed
    ensures TotalLen(EndTag(s, tag).0) == TotalLen(s)
    ensures Bounded(s) ==> Bounded(EndTag(s, tag).0)
  {
    var n := |s.openTags|;
    var init := s.openTags[..n - 1];
    assert s.openTags[1..][..n - 2 + 1] == s.openTags[1..];
    ClosingsPop(s.openTags);
    SumLenAppend(Closings(init), CloseTag(tag));
    SumLenAppend(s.current, CloseTag(tag));
  }

  /** The closing tags of a stack are those of the stack without its top, after the top's. */
  lemma {:induction false} ClosingsPop(tags: seq<Tag>)
    requires |tags| > 0
    ensures SumLen(Closings(tags)) == SumLen(Closings(tags[..|tags| - 1])) + |CloseTag(tags[|tags| - 1].name)|
  {
    SumLenConcat(Closings(tags));
    SumLenConcat(Closings(tags[..|tags| - 1]));
    var top := CloseTag(tags[|tags| - 1].name);
    assert Closings(tags) == [top] + Closings(tags[..|tags| - 1]);
    ConcatSplit([top], Closings(tags[..|tags| - 1]));
    ConcatSingle(top);
  }

  /** `HTMLSplitter`; the HTML tokenizer that drives it is outside the model. */
  class Splitter {
    var openTags: seq<Tag>
    var parsed: seq<string>
    var current: seq<string>

    function St(): State
      reads this
    {
      State(openTags, parsed, current)
    }

    constructor ()
      ensures openTags == [] && parsed == [] && current == []
    {
      openTags := [];
      parsed := [];
      current := [];
    }

    /** `finishMsg`. */
    method FinishMsg()
      modifies this
      ensures St() == Finish(old(St()))
    {
      var tags := openTags;
      for i := 0 to |tags|
        invariant openTags == tags && parsed == old(parsed)
        invariant current == old(current) + Closings(tags[|tags| - i..])
      {
        assert tags[|tags| - (i + 1)..][1..] == tags[|tags| - i..];
        current := current + [CloseTag(tags[|tags| - 1 - i].name)];
      }
      assert tags[|tags| - |tags|..] == tags;
      parsed := parsed + [Concat(current)];
      current := [];
      for i := 0 to |tags|
        invariant openTags == tags && parsed == old(parsed) + [Concat(old(current) + Closings(tags))]
        invariant current == Openings(tags[..i])
      {
        assert tags[..i + 1][..i] == tags[..i];
        current := current + [OpenTag(tags[i])];
      }
      assert tags[..|tags|] == tags;
    }

    /** `handle_entityref`. */
    method HandleEntityref(name: string)
      modifies this
      ensures St() == EntityRef(old(St()), name)
    {
      var unescaped := "&" + name + ";";
      var curLen := SumLen(current);
      SumLenConcat(current);
      var closingLen := SumLen(Closings(openTags));
      SumLenConcat(Closings(openTags));
      if curLen + closingLen + |unescaped| > Limit {
        FinishMsg();
      }
      current := current + [unescaped];
    }

    /** `handle_data`: the tags must leave room for text, or the loop would never end. */
    method HandleData(data: string)
      requires Roomy(St())
      modifies this
      ensures St() == Data(old(St()), data).0
    {
      var rest := data;
      while |rest| > 0
        invariant Roomy(St())
        invariant Data(St(), rest).0 == Data(old(St()), data).0
        decreases |rest|, if TotalLen(St()) >= Limit then 1 else 0
      {
        ghost var before := St();
        ghost var restBefore := rest;
        DataUnfold(before, rest);
        var remaining := Limit - TotalLen(St());
        if remaining <= 0 {
          FinishMsg();
        }
        remaining := Max(remaining, 0);
        var taking := if remaining <= |rest| then remaining else |rest|;
        current := current + [rest[..taking]];
        rest := rest[taking..];
        assert St() == DataStep(before, restBefore).0;
        assert rest == restBefore[|DataStep(before, restBefore).1|..];
      }
    }

    /** `handle_endtag`. */
    method HandleEndtag(tag: string) returns (outcome: EndOutcome)
      modifies this
      ensures (St(), outcome) == EndTag(old(St()), tag)
    {
      if |openTags| == 0 {
        return EmptyStack;
      }
      var popped := openTags[|openTags| - 1].name;
      openTags := openTags[..|openTags| - 1];
      if tag != popped {
        return Mismatch;
      }
      current := current + [CloseTag(tag)];
      return Closed;
    }

    /** `get_messages`: finish the current message and hand over every message. */
    method GetMessages() returns (msgs: seq<string>)
      modifies this
      ensures St() == Finish(old(St()))
      ensures msgs == parsed
    {
      FinishMsg();
      msgs := parsed;
    }

    /** `reset`. */
    method Reset()
      modifies this
      ensures openTags == [] && parsed == [] && current == []
    {
      openTags := [];
      parsed := [];
      current := [];
    }
  }
}
