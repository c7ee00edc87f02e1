/**
 * Per-newsgroup cursor bookkeeping: a map from group name to the number of the last article
 * handled, seeded from a saved map and the server's group list, and advanced by the article
 * range the NNTP GROUP command (section 6.1.1 of RFC 3977) reports.
 */
module NewsReader {

  import opened Wrappers
  import opened Text

  /** One entry of the server's group list: the group's name and its high watermark. */
  datatype GroupInfo = GroupInfo(name: string, last: int)

  function Names(server: seq<GroupInfo>): (r: seq<string>)
    ensures |r| == |server| && forall i :: 0 <= i < |server| ==> r[i] == server[i].name
  {
    if |server| == 0 then [] else Names(server[..|server| - 1]) + [server[|server| - 1].name]
  }

  /** The cursor a listed group starts from: the saved one if there is one, else the server's watermark. */
  function StartCursor(saved: map<string, int>, g: GroupInfo): int
  {
    if g.name in saved then saved[g.name] else g.last
  }

  /** The cursor map `initConnection` builds: one assignment per listed group, in list order. */
  function Merged(saved: map<string, int>, server: seq<GroupInfo>): map<string, int>
  {
    if |server| == 0 then map[]
    else
      var g := server[|server| - 1];
      Merged(saved, server[..|server| - 1])[g.name := StartCursor(saved, g)]
  }

  /** The dictionary's iteration order: names in order of first insertion. */
  function Insert(order: seq<string>, name: string): seq<string>
  {
    if name in order then order else order + [name]
  }

  function MergedOrder(server: seq<GroupInfo>): seq<string>
  {
    if |server| == 0 then [] else Insert(MergedOrder(server[..|server| - 1]), server[|server| - 1].name)
  }

  predicate Distinct(s: seq<string>)
  {
    forall i, j :: 0 <= i < j < |s| ==> s[i] != s[j]
  }

  /**
   * The merge keeps exactly the server's groups; a group the saved map knows keeps its saved
   * cursor, and any other takes the watermark of the last list entry with its name.
   */
  lemma {:induction false} MergedGroups(saved: map<string, int>, server: seq<GroupInfo>)
    ensures forall k :: k in Merged(saved, server) <==> k in Names(server)
    ensures forall k :: k in Merged(saved, server) && k in saved ==> Merged(saved, server)[k] == saved[k]
    ensures forall k :: k in Merged(saved, server) && k !in saved ==>
      exists i :: (0 <= i < |server| && server[i] == GroupInfo(k, Merged(saved, server)[k])
        && forall j :: i < j < |server| ==> server[j].name != k)
  {
    if |server| > 0 {
      var init := server[..|server| - 1];
      MergedGroups(saved, init);
      assert Names(server) == Names(init) + [server[|server| - 1].name];
      forall k | k in Merged(saved, server) && k !in saved
        ensures exists i :: (0 <= i < |server| && server[i] == GroupInfo(k, Merged(saved, server)[k])
          && forall j :: i < j < |server| ==> server[j].name != k)
      {
        if k != server[|server| - 1].name {
          var i :| 0 <= i < |init| && init[i] == GroupInfo(k, Merged(saved, init)[k])
            && forall j :: i < j < |init| ==> init[j].name != k;
          assert server[i] == init[i];
          assert forall j :: i < j < |server| - 1 ==> server[j] == init[j];
        } else {
          assert server[|server| - 1] == GroupInfo(k, Merged(saved, server)[k]);
        }
      }
    }
  }

  /** The iteration order lists every key once. */
  lemma {:induction false} MergedOrderKeys(saved: map<string, int>, server: seq<GroupInfo>)
    ensures Distinct(MergedOrder(server))
    ensures forall k :: k in MergedOrder(server) <==> k in Merged(saved, server)
  {
    if |server| > 0 {
      MergedOrderKeys(saved, server[..|server| - 1]);
    }
  }

  /** The back-off after `k` failed attempts: 1, doubling, capped at 60. */
  function Backoff(k: nat): int
  {
    if k == 0 then 1 else Min(60, 2 * Backoff(k - 1))
  }

  function Min(a: int, b: int): int
  {
    if a <= b then a else b
  }

  function Pow2(k: nat): nat
  {
    if k == 0 then 1 else 2 * Pow2(k - 1)
  }

  /** The back-off is the power of two, capped at 60: never more than a minute, never less than a second. */
  lemma {:induction false} BackoffCapped(k: nat)
    ensures Backoff(k) == Min(60, Pow2(k))
    ensures 1 <= Backoff(k) <= 60
  {
    if k > 0 {
      BackoffCapped(k - 1);
    }
  }

  /**
   * `connect`'s retry loop. `attempts[i]` says whether the `i`-th connection attempt succeeds;
   * the loop ends at the first success, having slept `Backoff(k)` after the `k`-th failure.
   * When every attempt given fails, `connected` is false: the source would still be retrying.
   */
  method Connect(attempts: seq<bool>) returns (connected: bool, used: nat, sleeps: seq<int>)
    ensures connected <==> exists i :: 0 <= i < |attempts| && attempts[i]
    ensures connected ==> used < |attempts| && attempts[used]
    ensures !connected ==> used == |attempts|
    ensures forall k :: 0 <= k < used ==> !attempts[k]
    ensures |sleeps| == used && forall k :: 0 <= k < used ==> sleeps[k] == Backoff(k)
  {
    var backoff := 1;
    used := 0;
    sleeps := [];
    while used < |attempts| && !attempts[used]
      invariant used <= |attempts|
      invariant forall k :: 0 <= k < used ==> !attempts[k]
      invariant |sleeps| == used && forall k :: 0 <= k < used ==> sleeps[k] == Backoff(k)
      invariant backoff == Backoff(used)
      decreases |attempts| - used
    {
      sleeps := sleeps + [backoff];
      backoff := Min(60, backoff * 2);
      used := used + 1;
    }
    connected := used < |attempts|;
  }

  /** The first name in `order` that ends with `topic`. */
  function FirstEnding(order: seq<string>, topic: string): (r: Option<string>)
    ensures r.Some? ==> r.value in order && EndsWith(r.value, topic)
    ensures r.None? <==> forall k :: 0 <= k < |order| ==> !EndsWith(order[k], topic)
  {
    if |order| == 0 then None
    else if EndsWith(order[0], topic) then Some(order[0])
    else FirstEnding(order[1..], topic)
  }

  /** A group found by `closest` comes before every other group that also ends with the topic. */
  lemma {:induction false} FirstEndingIsFirst(order: seq<string>, topic: string, i: nat)
    requires i < |order| && FirstEnding(order, topic) == Some(order[i])
    requires Distinct(order)
    ensures forall k :: 0 <= k < i ==> !EndsWith(order[k], topic)
  {
    if !EndsWith(order[0], topic) {
      assert i > 0;
      assert order[1..][i - 1] == order[i];
      FirstEndingIsFirst(order[1..], topic, i - 1);
      forall k | 0 < k < i
        ensures !EndsWith(order[k], topic)
      {
        assert order[1..][k - 1] == order[k];
      }
    }
  }

  /** What an article fetch yields: the article's number and its lines joined by CRLF. */
  datatype Fetched = Fetched(number: int, raw: string)

  /** The articles `updateTopic` collects for `lo..hi`, in number order, failures skipped. */
  function FetchRange(lo: int, hi: int, fetch: int -> Option<seq<string>>): seq<Fetched>
    decreases hi - lo + 1
  {
    if lo > hi then []
    else
      (if fetch(lo).Some? then [Fetched(lo, Join("\r\n", fetch(lo).value))] else [])
      + FetchRange(lo + 1, hi, fetch)
  }

  /** The first article collected, if any, and the rest: `FetchRange` unfolded once. */
  lemma FetchRangeUnfold(lo: int, hi: int, fetch: int -> Option<seq<string>>)
    requires lo <= hi
    ensures var head := if fetch(lo).Some? then [Fetched(lo, Join("\r\n", fetch(lo).value))] else [];
      var rest := FetchRange(lo + 1, hi, fetch);
      var r := FetchRange(lo, hi, fetch);
      && r == head + rest
      && (forall i :: |head| <= i < |r| ==> r[i] == rest[i - |head|])
  {
  }

  /** Every collected article lies in the range and was fetched successfully. */
  lemma {:induction false} FetchRangeBounds(lo: int, hi: int, fetch: int -> Option<seq<string>>)
    ensures var r := FetchRange(lo, hi, fetch);
      forall i :: 0 <= i < |r| ==> lo <= r[i].number <= hi && fetch(r[i].number).Some?
    decreases hi - lo + 1
  {
    if lo <= hi {
      FetchRangeBounds(lo + 1, hi, fetch);
      FetchRangeUnfold(lo, hi, fetch);
    }
  }

  /** The collected articles come in strictly ascending number order. */
  lemma {:induction false} FetchRangeAscending(lo: int, hi: int, fetch: int -> Option<seq<string>>)
    ensures var r := FetchRange(lo, hi, fetch);
      forall i, j :: 0 <= i < j < |r| ==> r[i].number < r[j].number
    decreases hi - lo + 1
  {
    if lo <= hi {
      FetchRangeAscending(lo + 1, hi, fetch);
      FetchRangeBounds(lo + 1, hi, fetch);
      FetchRangeUnfold(lo, hi, fetch);
    }
  }

  /** An article is collected whenever its fetch succeeds. */
  lemma {:induction false} FetchRangeComplete(lo: int, hi: int, fetch: int -> Option<seq<string>>)
    ensures var r := FetchRange(lo, hi, fetch);
      forall n :: lo <= n <= hi && fetch(n).Some? ==> Fetched(n, Join("\r\n", fetch(n).value)) in r
    decreases hi - lo + 1
  {
    if lo <= hi {
      FetchRangeComplete(lo + 1, hi, fetch);
      FetchRangeUnfold(lo, hi, fetch);
    }
  }

  /**
   * The collected articles lie in the range, come in strictly ascending number order, and an
   * article is collected exactly when its fetch succeeds.
   */
  lemma FetchRangeProperties(lo: int, hi: int, fetch: int -> Option<seq<string>>)
    ensures var r := FetchRange(lo, hi, fetch);
      && (forall i :: 0 <= i < |r| ==> lo <= r[i].number <= hi && fetch(r[i].number).Some?)
      && (forall i, j :: 0 <= i < j < |r| ==> r[i].number < r[j].number)
      && (forall n :: lo <= n <= hi && fetch(n).Some? ==> Fetched(n, Join("\r\n", fetch(n).value)) in r)
  {
    FetchRangeBounds(lo, hi, fetch);
    FetchRangeAscending(lo, hi, fetch);
    FetchRangeComplete(lo, hi, fetch);
  }

  /** What `updateTopic` returns: the fetched articles, or how it ended without any. */
  datatype UpdateResult = Articles(fetched: seq<Fetched>) | GroupFailed | UnknownTopic

  /** The cursor map with its iteration order; the connection itself is outside the model. */
  class Reader {
    var groups: map<string, int>
    var order: seq<string>
    var initialized: bool

    ghost predicate Valid()
      reads this
    {
      Distinct(order) && forall k :: k in order <==> k in groups
    }

    /** `__init__`: an empty, uninitialised reader, then `initConnection`. */
    constructor (saved: map<string, int>, server: seq<GroupInfo>)
      ensures Valid() && initialized
      ensures groups == Merged(saved, server) && order == MergedOrder(server)
    {
      initialized := false;
      groups := map[];
      order := [];
      new;
      InitConnection(saved, server);
    }

    /**
     * `initConnection`: `saved` is the cursor file's map (empty when it cannot be read) and
     * `server` the reply to LIST.
     */
    method InitConnection(saved: map<string, int>, server: seq<GroupInfo>)
      modifies this
      ensures Valid() && initialized
      ensures groups == Merged(saved, server) && order == MergedOrder(server)
    {
      groups := map[];
      order := [];
      for i := 0 to |server|
        invariant groups == Merged(saved, server[..i]) && order == MergedOrder(server[..i])
      {
        assert server[..i + 1][..i] == server[..i];
        var g := server[i];
        if g.name in saved {
          groups := groups[g.name := saved[g.name]];
        } else {
          groups := groups[g.name := g.last];
        }
        if g.name !in order {
          order := order + [g.name];
        }
      }
      assert server[..|server|] == server;
      MergedOrderKeys(saved, server);
      initialized := true;
    }

    /** `validTopic`: whether the topic is one of the tracked groups. */
    function ValidTopic(topic: string): (r: bool)
      requires Valid()
      reads this
      ensures r <==> exists k :: 0 <= k < |order| && order[k] == topic
    {
      topic in groups
    }

    /** `closest`: the first tracked group, in iteration order, whose name ends with `topic`. */
    method Closest(topic: string) returns (r: Option<string>)
      requires Valid()
      ensures r == FirstEnding(order, topic)
      ensures r.Some? ==> r.value in groups
    {
      var k := 0;
      while k < |order|
        invariant 0 <= k <= |order|
        invariant FirstEnding(order, topic) == FirstEnding(order[k..], topic)
      {
        assert order[k..][1..] == order[k + 1..];
        if EndsWith(order[k], topic) {
          return Some(order[k]);
        }
        k := k + 1;
      }
      return None;
    }

    /**
     * `updateTopic`. `group` is the reply to GROUP: the article range, or None when the command
     * fails; `fetch(n)` is the lines of article `n`, or None when ARTICLE fails. `UnknownTopic`
     * stands for the KeyError that reading the cursor of an untracked topic raises.
     */
    method UpdateTopic(topic: string, group: Option<(int, int)>, fetch: int -> Option<seq<string>>) returns (r: UpdateResult)
      modifies this
      ensures order == old(order) && initialized == old(initialized)
      ensures !initialized ==> r == Articles([]) && groups == old(groups)
      ensures initialized && group.None? ==> r == GroupFailed && groups == old(groups)
      ensures initialized && group.Some? && topic !in old(groups) ==> r == UnknownTopic && groups == old(groups)
      ensures initialized && group.Some? && topic in old(groups) ==>
        var (first, last) := group.value;
        && r == Articles(FetchRange(Max(old(groups)[topic] + 1, first), last, fetch))
        && groups == old(groups)[topic := last]
      ensures old(Valid()) ==> Valid()
    {
      if !initialized {
        return Articles([]);
      }
      if group.None? {
        return GroupFailed;
      }
      var (first, last) := group.value;
      if topic !in groups {
        return UnknownTopic;
      }
      var start := Max(groups[topic] + 1, first);
      ghost var lo := start;
      var res := [];
      while start <= last
        invariant lo <= start <= Max(lo, last + 1)
        invariant res + FetchRange(start, last, fetch) == FetchRange(lo, last, fetch)
        decreases last - start + 1
      {
        var artic := fetch(start);
        if artic.Some? {
          res := res + [Fetched(start, Join("\r\n", artic.value))];
        }
        start := start + 1;
      }
      groups := groups[topic := last];
      return Articles(res);
    }
  }

  function Max(a: int, b: int): int
  {
    if a >= b then a else b
  }

  /** No article at or below the saved cursor is fetched again, and none above the new one. */
  lemma NoRefetch(saved: int, first: int, last: int, fetch: int -> Option<seq<string>>)
    ensures var r := FetchRange(Max(saved + 1, first), last, fetch);
      forall i :: 0 <= i < |r| ==> saved < r[i].number <= last && first <= r[i].number
  {
    FetchRangeProperties(Max(saved + 1, first), last, fetch);
  }
}
