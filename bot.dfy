/**
 * The Telegram bot's command logic: chunked sending, update parsing, command dispatch, the
 * replies to the store's result codes and the `+1` delivery filter. The Telegram API and the
 * store are oracles handed in as parameters.
 */
module Bot {

  import opened Wrappers
  import opened Text

  // ---------------------------------------------------------------------------
  // sendMsg
  // ---------------------------------------------------------------------------

  /** The longest text one `sendMessage` request carries. */
  const ChunkSize := 4096

  /** The slices `sendMsg` sends, in order: `text[:4096]`, then the rest the same way. */
  function Chunks(text: string): (r: seq<string>)
    decreases |text|
  {
    if |text| == 0 then []
    else if |text| <= ChunkSize then [text]
    else [text[..ChunkSize]] + Chunks(text[ChunkSize..])
  }

  /**
   * The slices make up the text; each is non-empty and at most 4096 long, and every one but
   * the last is exactly 4096 long.
   */
  lemma {:induction false} ChunksProperties(text: string)
    ensures Concat(Chunks(text)) == text
    ensures forall k :: 0 <= k < |Chunks(text)| ==> 0 < |Chunks(text)[k]| <= ChunkSize
    ensures forall k :: 0 <= k < |Chunks(text)| - 1 ==> |Chunks(text)[k]| == ChunkSize
    ensures |text| == 0 <==> |Chunks(text)| == 0
    decreases |text|
  {
    if |text| > ChunkSize {
      var rest := Chunks(text[ChunkSize..]);
      ChunksProperties(text[ChunkSize..]);
      assert Chunks(text) == [text[..ChunkSize]] + rest;
      ConcatSplit([text[..ChunkSize]], rest);
      ConcatSingle(text[..ChunkSize]);
      assert text == text[..ChunkSize] + text[ChunkSize..];
    } else if |text| > 0 {
      ConcatSingle(text);
    }
  }

  /** The first slice of a non-empty text, and the slices of what follows it. */
  lemma ChunksFront(rest: string)
    requires |rest| > 0
    ensures var slice := if |rest| <= ChunkSize then rest else rest[..ChunkSize];
      Chunks(rest) == [slice] + Chunks(rest[|slice|..])
  {
    if |rest| <= ChunkSize {
      assert rest[|rest|..] == [];
    }
  }

  lemma PrefixOfAppend<T>(a: seq<T>, b: seq<T>)
    ensures (a + b)[..|a|] == a
  {
  }

  /** What was sent before a stop is a prefix of the text. */
  lemma SentPrefix(text: string, n: nat)
    requires n <= |Chunks(text)|
    ensures Concat(Chunks(text)[..n]) <= text
  {
    var cs := Chunks(text);
    ChunksProperties(text);
    assert cs == cs[..n] + cs[n..];
    ConcatSplit(cs[..n], cs[n..]);
  }

  /** Every request for these slices, numbered from 0, succeeded. */
  ghost predicate Accepted(sent: seq<string>, accept: (nat, string) -> bool)
  {
    forall k :: 0 <= k < |sent| ==> accept(k, sent[k])
  }

  lemma AcceptedAppend(sent: seq<string>, slice: string, accept: (nat, string) -> bool)
    requires Accepted(sent, accept) && accept(|sent|, slice)
    ensures Accepted(sent + [slice], accept)
  {
  }

  /**
   * `sendMsg`. `accept(k, slice)` says whether the `k`-th request, carrying `slice`, succeeds.
   * It returns the outcome of the last request, or None when the text is empty (the source then
   * reads a variable it never set), and the slices it sent.
   */
  method SendMsg(text: string, accept: (nat, string) -> bool) returns (res: Option<bool>, sent: seq<string>)
    ensures res.None? <==> |text| == 0
    ensures res.None? ==> sent == []
    ensures |sent| <= |Chunks(text)| && sent == Chunks(text)[..|sent|]
    ensures |sent| > 0 ==> Accepted(sent[..|sent| - 1], accept)
    ensures res.Some? ==> |sent| > 0 && res.value == accept(|sent| - 1, sent[|sent| - 1])
    ensures res == Some(true) ==> sent == Chunks(text)
  {
    var rest := text;
    res := None;
    sent := [];
    while |rest| > 0
      invariant Chunks(text) == sent + Chunks(rest)
      invariant Accepted(sent, accept)
      invariant res.None? <==> |sent| == 0
      invariant res.Some? ==> res.value
      invariant |sent| == 0 ==> rest == text
      decreases |rest|
    {
      var slice := if |rest| <= ChunkSize then rest else rest[..ChunkSize];
      var rest' := rest[|slice|..];
      ChunksFront(rest);
      AppendAssoc(sent, [slice], Chunks(rest'));
      ghost var old_sent := sent;
      rest := rest';
      sent := sent + [slice];
      var ok := accept(|sent| - 1, slice);
      res := Some(ok);
      assert sent[..|sent| - 1] == old_sent;
      if !ok {
        PrefixOfAppend(sent, Chunks(rest));
        return;
      }
      AcceptedAppend(old_sent, slice, accept);
    }
    assert sent == Chunks(text);
  }

  // ---------------------------------------------------------------------------
  // parse
  // ---------------------------------------------------------------------------

  /** The sender of a message, with the fields Telegram may leave out. */
  datatype User = User(id: int, username: Option<string>, firstName: Option<string>, lastName: Option<string>)

  datatype Message = Message(chatId: int, sender: User, text: Option<string>)

  /** An update: a new message, an edited one, or neither. */
  datatype Update = Update(message: Option<Message>, editedMessage: Option<Message>)

  /** What `parse` extracts. */
  datatype Parsed = Parsed(cid: int, uid: int, cmd: string, txt: string, uname: string)

  /** The name shown to the user: the username, or when it is missing or empty, first and last name. */
  function DisplayName(u: User): (r: string)
    ensures u.username.Some? && |u.username.value| > 0 ==> r == u.username.value
    ensures !(u.username.Some? && |u.username.value| > 0) ==>
      r == u.firstName.GetOr("") + " " + u.lastName.GetOr("")
    ensures |r| > 0
  {
    var uname := u.username.GetOr("");
    if |uname| == 0 then u.firstName.GetOr("") + " " + u.lastName.GetOr("") else uname
  }

  /**
   * `parse`: None when the update holds neither a message nor an edited message (the source
   * then reads `msg` unset); a message without text reads as `"n n"`.
   */
  function Parse(update: Update): (r: Option<Parsed>)
    ensures r.None? <==> update.message.None? && update.editedMessage.None?
    ensures r.Some? ==> r.value.cmd == Split(r.value.txt, ' ')[0]
  {
    var msg := if update.message.Some? then update.message else update.editedMessage;
    match msg
    case None => None
    case Some(m) =>
      var txt := m.text.GetOr("n n");
      Some(Parsed(m.chatId, m.sender.id, Split(txt, ' ')[0], txt, DisplayName(m.sender)))
  }

  /** The command is the text up to its first space: a space-free prefix, ending at a space or at the end. */
  lemma ParseCommand(update: Update)
    requires Parse(update).Some?
    ensures var p := Parse(update).value;
      p.cmd <= p.txt && ' ' !in p.cmd && (|p.cmd| == |p.txt| || p.txt[|p.cmd|] == ' ')
  {
    var p := Parse(update).value;
    SplitFirst(p.txt, ' ');
  }

  /** A message without text parses as the command `n`, so it is answered as chat. */
  lemma ParseNoText(update: Update)
    requires update.message.Some? && update.message.value.text.None?
    ensures Parse(update).Some? && Parse(update).value.txt == "n n" && Parse(update).value.cmd == "n"
  {
    var t := "n n";
    assert t == "n" + [' '] + "n";
    SplitAfter("n", "n", ' ');
  }

  // ---------------------------------------------------------------------------
  // The store and the replies
  // ---------------------------------------------------------------------------

  /** The store's answers, as functions of the arguments of each call. */
  datatype Store = Store(
    registerUser: (int, int, string) -> int,
    updateUser: (int, bool) -> int,
    addTopic: (int, string) -> int,
    deleteTopic: (int, string) -> int,
    topicsByCid: int -> Option<seq<string>>,
    cids: seq<int>)

  /** A store call the bot makes, with its arguments. */
  datatype Call =
    | RegisterUser(uid: int, cid: int, uname: string)
    | UpdateUser(uid: int, noPlusOne: bool)
    | AddTopic(cid: int, topic: string)
    | DeleteTopic(cid: int, topic: string)
    | TopicsByCid(cid: int)
    | GetCids

  /** What handling an update does, in order: store calls and messages sent. */
  datatype Effect = StoreCall(call: Call) | Reply(cid: int, text: string)

  const Chatty := "Master didn't make me a chatty bot!"
  const NotImplemented := "Master didn't implement it yet!"
  const Invalid := "You forgot to mention the topic name"
  const NoTopics := "You haven't added any topics yet"
  const HelpText := "You can add courses by \"/add metu.ceng.course.100\"\n"
    + "or any other topic, by any suffix. Then you can use \"/list\" to list the added topics\n"
    + "or use \"/delete metu.ceng.course.100\" to delete any course from your list. There is also +1 flagging\n"
    + "you can enable it using /noplus1 this feature is experimental. For any bugs and hugs @kadircet."

  /** The only user whose announcements are sent on. */
  const AnnouncerId := 147926496

  function Welcome(u: string): string { "Hello " + u + ", you can use /help to get a look at commands" }
  function Registered(u: string): string { "Welcome back " + u + ", type /help to take a look at commands" }
  function Exists(t: string): string { t + " is already in your list" }
  function NotExists(t: string): string { t + " does not seem to be in your list" }
  function NotFound(t: string): string { t + " does not seem to be a valid topic" }
  function Added(t: string): string { t + " has been successfully added to your list" }
  function Deleted(t: string): string { t + " has been successfully deleted from your list" }
  function Error(u: string): string { "Sorry " + u + ", something went wrong, please try again" }
  function Updated(u: string): string { "Well played! Your profile successfully updated, " + u + "." }

  /** The reply to `registerUser`'s code. */
  function StartReply(code: int, uname: string): (r: string)
    ensures code == 0 ==> r == Welcome(uname)
    ensures code == 1 ==> r == Registered(uname)
    ensures code != 0 && code != 1 ==> r == Error(uname)
  {
    if code == 0 then Welcome(uname) else if code == 1 then Registered(uname) else Error(uname)
  }

  /** The reply to `addTopic`'s code. */
  function AddReply(code: int, topic: string, uname: string): (r: string)
    ensures code == 0 ==> r == Added(topic)
    ensures code == 1 ==> r == Exists(topic)
    ensures code == 2 ==> r == NotFound(topic)
    ensures code !in {0, 1, 2} ==> r == Error(uname)
  {
    if code == 0 then Added(topic) else if code == 1 then Exists(topic) else if code == 2 then NotFound(topic) else Error(uname)
  }

  /** The reply to `deleteTopic`'s code. */
  function DeleteReply(code: int, topic: string, uname: string): (r: string)
    ensures code == 0 ==> r == Deleted(topic)
    ensures code == 1 ==> r == NotExists(topic)
    ensures code == 2 ==> r == NotFound(topic)
    ensures code !in {0, 1, 2} ==> r == Error(uname)
  {
    if code == 0 then Deleted(topic) else if code == 1 then NotExists(topic) else if code == 2 then NotFound(topic) else Error(uname)
  }

  /** The reply to `updateUser`'s code. */
  function PlusOneReply(code: int, uname: string): (r: string)
    ensures code == 0 ==> r == Updated(uname)
    ensures code != 0 ==> r == Error(uname)
  {
    if code == 0 then Updated(uname) else Error(uname)
  }

  /** `listHandler`'s text: one topic per line, each ending in CRLF, or a note when there are none. */
  function ListText(topics: seq<string>): (r: string)
    ensures |topics| == 0 ==> r == NoTopics
  {
    var msg := TopicLines(topics);
    if msg == "" then NoTopics else msg
  }

  /** The loop of `listHandler`: each topic followed by CRLF, appended in order. */
  function TopicLines(topics: seq<string>): (r: string)
    ensures |topics| > 0 ==> |r| >= 2 && r[|r| - 2..] == "\r\n"
  {
    if |topics| == 0 then "" else TopicLines(topics[..|topics| - 1]) + topics[|topics| - 1] + "\r\n"
  }

  /** The listed text is the topics joined by CRLF, with a final CRLF. */
  lemma {:induction false} TopicLinesJoin(topics: seq<string>)
    requires |topics| > 0
    ensures TopicLines(topics) == Join("\r\n", topics) + "\r\n"
  {
    var n := |topics|;
    var init := topics[..n - 1];
    if n == 1 {
      assert TopicLines(init) == "";
    } else {
      TopicLinesJoin(init);
      assert topics == init + [topics[n - 1]];
      JoinSnoc("\r\n", init, topics[n - 1]);
    }
  }

  /** A non-empty list is listed as it is: the note appears only for an empty list. */
  lemma ListTextTopics(topics: seq<string>)
    requires |topics| > 0
    ensures ListText(topics) == TopicLines(topics)
  {
  }

  // ---------------------------------------------------------------------------
  // Handlers and dispatch
  // ---------------------------------------------------------------------------

  /** The handler table's entries. */
  datatype Command = Add | ListTopics | Start | Delete | Help | ListAll | NoPlusOne | YesPlusOne | Announcement

  /** The handler table: eleven names for nine handlers. */
  function Handler(name: string): (r: Option<Command>)
    ensures name == "start" <==> r == Some(Start)
  {
    if name == "add" then Some(Add)
    else if name == "list" then Some(ListTopics)
    else if name == "start" then Some(Start)
    else if name == "delete" then Some(Delete)
    else if name == "help" then Some(Help)
    else if name == "listall" then Some(ListAll)
    else if name == "no+1" || name == "noplus1" then Some(NoPlusOne)
    else if name == "yes+1" || name == "yesplus1" then Some(YesPlusOne)
    else if name == "announcement" then Some(Announcement)
    else None
  }

  /** `startHandler`: register the user, and reply only when asked to. */
  function StartEffects(p: Parsed, store: Store, reply: bool): (r: seq<Effect>)
    ensures |r| >= 1 && r[0] == StoreCall(RegisterUser(p.uid, p.cid, p.uname))
    ensures !reply ==> |r| == 1
  {
    var code := store.registerUser(p.uid, p.cid, p.uname);
    [StoreCall(RegisterUser(p.uid, p.cid, p.uname))]
      + (if reply then [Reply(p.cid, StartReply(code, p.uname))] else [])
  }

  /**
   * The effects of the handler a command names, once it has been found in the table. Every
   * handler but the announcement's makes its store calls and then replies once, to the sender;
   * an announcement from anyone but the announcer does nothing.
   */
  function HandlerEffects(c: Command, p: Parsed, store: Store, groupNames: seq<string>): (r: seq<Effect>)
    ensures c != Announcement ==>
      && |r| >= 1 && r[|r| - 1].Reply? && r[|r| - 1].cid == p.cid
      && forall k :: 0 <= k < |r| - 1 ==> r[k].StoreCall?
    ensures c == Announcement && p.uid != AnnouncerId ==> r == []
  {
    var words := Split(p.txt, ' ');
    match c
    case Start => StartEffects(p, store, true)
    case Add =>
      if |words| < 2 then [Reply(p.cid, Invalid)]
      else [StoreCall(AddTopic(p.cid, words[1])), Reply(p.cid, AddReply(store.addTopic(p.cid, words[1]), words[1], p.uname))]
    case Delete =>
      if |words| < 2 then [Reply(p.cid, Invalid)]
      else [StoreCall(DeleteTopic(p.cid, words[1])), Reply(p.cid, DeleteReply(store.deleteTopic(p.cid, words[1]), words[1], p.uname))]
    case ListTopics =>
      var res := store.topicsByCid(p.cid);
      [StoreCall(TopicsByCid(p.cid)), Reply(p.cid, if res.None? then Error(p.uname) else ListText(res.value))]
    case ListAll =>
      var res := store.topicsByCid(p.cid);
      [StoreCall(TopicsByCid(p.cid)), Reply(p.cid, if res.None? then Error(p.uname) else Join("\n", groupNames))]
    case Help => [Reply(p.cid, HelpText)]
    case NoPlusOne => [StoreCall(UpdateUser(p.uid, true)), Reply(p.cid, PlusOneReply(store.updateUser(p.uid, true), p.uname))]
    case YesPlusOne => [StoreCall(UpdateUser(p.uid, false)), Reply(p.cid, PlusOneReply(store.updateUser(p.uid, false), p.uname))]
    case Announcement =>
      if p.uid != AnnouncerId then []
      else if |words| < 2 then [Reply(p.cid, Invalid)]
      else [StoreCall(GetCids)] + Broadcast(store.cids, words[1])
  }

  /** The announcement sent to every chat, in the store's order. */
  function Broadcast(cids: seq<int>, text: string): (r: seq<Effect>)
    ensures |r| == |cids| && forall k :: 0 <= k < |cids| ==> r[k] == Reply(cids[k], text)
  {
    if |cids| == 0 then [] else [Reply(cids[0], text)] + Broadcast(cids[1..], text)
  }

  /**
   * `process`: None when handling raises (no message in the update, or an empty command);
   * otherwise what handling the update does.
   */
  function Process(update: Update, store: Store, groupNames: seq<string>): (r: Option<seq<Effect>>)
    ensures r.None? <==> Parse(update).None? || |Parse(update).value.cmd| == 0
  {
    match Parse(update)
    case None => None
    case Some(p) =>
    if |p.cmd| == 0 then None
    else if p.cmd[0] != '/' then Some([Reply(p.cid, Chatty)])
    else
      match Handler(p.cmd[1..])
      case None => Some([Reply(p.cid, NotImplemented)])
      case Some(c) =>
        Some((if c != Start then StartEffects(p, store, false) else []) + HandlerEffects(c, p, store, groupNames))
  }

  /** A command that does not start with `/`, or names no handler, gets one fixed reply and touches nothing. */
  lemma ProcessRejects(update: Update, store: Store, groupNames: seq<string>)
    requires Parse(update).Some? && |Parse(update).value.cmd| > 0
    ensures var p := Parse(update).value;
      && (p.cmd[0] != '/' ==> Process(update, store, groupNames) == Some([Reply(p.cid, Chatty)]))
      && (p.cmd[0] == '/' && Handler(p.cmd[1..]).None? ==> Process(update, store, groupNames) == Some([Reply(p.cid, NotImplemented)]))
  {
  }

  /**
   * A known command other than `start` first registers the sender without a reply, then runs
   * its own handler; `start` runs once, with its reply.
   */
  lemma ProcessRegistersFirst(update: Update, store: Store, groupNames: seq<string>)
    requires Parse(update).Some?
    requires var p := Parse(update).value; |p.cmd| > 0 && p.cmd[0] == '/' && Handler(p.cmd[1..]).Some?
    ensures var p := Parse(update).value;
      var c := Handler(p.cmd[1..]).value;
      var r := Process(update, store, groupNames).value;
      && r[0] == StoreCall(RegisterUser(p.uid, p.cid, p.uname))
      && (c != Start ==> r == [StoreCall(RegisterUser(p.uid, p.cid, p.uname))] + HandlerEffects(c, p, store, groupNames))
      && (c == Start ==> r == StartEffects(p, store, true))
  {
  }

  /**
   * `/add` and `/delete` without a topic reply `invalid` and leave the store alone; with one,
   * they make exactly one store call for the second word and send one reply.
   */
  lemma TopicCommands(c: Command, p: Parsed, store: Store, groupNames: seq<string>)
    requires c == Add || c == Delete
    ensures var words := Split(p.txt, ' ');
      var r := HandlerEffects(c, p, store, groupNames);
      && (|words| < 2 ==> r == [Reply(p.cid, Invalid)])
      && (|words| >= 2 ==> |r| == 2 && r[0].StoreCall? && r[1].Reply? && r[1].cid == p.cid)
      && (|words| >= 2 && c == Add ==> r[0] == StoreCall(AddTopic(p.cid, words[1])))
      && (|words| >= 2 && c == Delete ==> r[0] == StoreCall(DeleteTopic(p.cid, words[1])))
  {
  }

  /** Only the announcer's announcements go out, to every chat the store knows. */
  lemma AnnouncementOnlyFromAnnouncer(p: Parsed, store: Store, groupNames: seq<string>)
    ensures p.uid != AnnouncerId ==> HandlerEffects(Announcement, p, store, groupNames) == []
    ensures p.uid == AnnouncerId && |Split(p.txt, ' ')| >= 2 ==>
      |HandlerEffects(Announcement, p, store, groupNames)| == |store.cids| + 1
  {
  }

  // ---------------------------------------------------------------------------
  // updateTopics: one pass of the delivery loop
  // ---------------------------------------------------------------------------

  /** A subscriber: the chat and whether it opted out of `+1` messages. */
  datatype Subscriber = Subscriber(cid: int, noPlusOne: bool)

  /** A fetched post: whether it is a `+1`, and its text. */
  datatype Post = Post(plusOne: bool, text: string)

  /** A topic with its subscribers, as the store lists it. */
  datatype Entry = Entry(topic: string, users: seq<Subscriber>)

  /** What `updateTopic` gives for a topic: posts, None, or an exception. */
  datatype TopicUpdate = Posts(posts: seq<Post>) | NoPosts | Raises

  /** The delivery filter: a post reaches a user unless the user opted out and the post is a `+1`. */
  predicate Reaches(u: Subscriber, m: Post)
  {
    !u.noPlusOne || !m.plusOne
  }

  /** A message handed to `sendMsg`. */
  datatype Delivery = Delivery(cid: int, text: string)

  /** Part of a pass: what was sent, and whether it ran to the end without raising. */
  datatype Run = Run(sent: seq<Delivery>, completed: bool)

  /** One part after another: the second runs only when the first did not raise. */
  function Then(a: Run, b: Run): Run
  {
    if a.completed then Run(a.sent + b.sent, b.completed) else a
  }

  lemma ThenAssoc(a: Run, b: Run, c: Run)
    ensures Then(Then(a, b), c) == Then(a, Then(b, c))
  {
    if a.completed && b.completed {
      AppendAssoc(a.sent, b.sent, c.sent);
    }
  }

  /** Offering one post to one user: skipped by the filter, sent, or, when empty, `sendMsg` raises. */
  function PostSend(u: Subscriber, m: Post): Run
  {
    if !Reaches(u, m) then Run([], true)
    else if |m.text| == 0 then Run([], false)
    else Run([Delivery(u.cid, m.text)], true)
  }

  function PostSends(u: Subscriber, posts: seq<Post>): Run
  {
    if |posts| == 0 then Run([], true) else Then(PostSend(u, posts[0]), PostSends(u, posts[1..]))
  }

  function UserSends(users: seq<Subscriber>, posts: seq<Post>): Run
  {
    if |users| == 0 then Run([], true) else Then(PostSends(users[0], posts), UserSends(users[1..], posts))
  }

  /** One entry: iterating the users over None, or an `updateTopic` that raises, ends the pass. */
  function EntrySends(e: Entry, update: TopicUpdate): Run
  {
    match update
    case Raises => Run([], false)
    case NoPosts => Run([], |e.users| == 0)
    case Posts(posts) => UserSends(e.users, posts)
  }

  function PassSends(entries: seq<Entry>, updates: string -> TopicUpdate): Run
  {
    if |entries| == 0 then Run([], true) else Then(EntrySends(entries[0], updates(entries[0].topic)), PassSends(entries[1..], updates))
  }

  /** The messages that hand `posts` to chat `cid`, one per post, in order. */
  function Deliveries(cid: int, posts: seq<Post>): (r: seq<Delivery>)
    ensures |r| == |posts|
    ensures forall k :: 0 <= k < |posts| ==> r[k] == Delivery(cid, posts[k].text)
  {
    if |posts| == 0 then [] else [Delivery(cid, posts[0].text)] + Deliveries(cid, posts[1..])
  }

  /**
   * Where offering `posts` to `u` stops: the first post that passes the filter and has an
   * empty text, on which `sendMsg` raises; `|posts|` when there is none.
   */
  function FirstBlocked(u: Subscriber, posts: seq<Post>): (n: nat)
    ensures n <= |posts|
    ensures forall j :: 0 <= j < n && Reaches(u, posts[j]) ==> |posts[j].text| > 0
    ensures n < |posts| ==> Reaches(u, posts[n]) && |posts[n].text| == 0
  {
    if |posts| == 0 then 0
    else if Reaches(u, posts[0]) && |posts[0].text| == 0 then 0
    else
      var n := 1 + FirstBlocked(u, posts[1..]);
      assert forall j :: 0 < j < |posts| ==> posts[j] == posts[1..][j - 1];
      n
  }

  /**
   * What one user is sent from a list of posts: exactly the posts that pass the filter, in
   * order, up to the first one with an empty text, where the run stops; when there is none,
   * the run completes and every post that passes is sent, so a user who did not opt out
   * gets every post.
   */
  lemma {:induction false} PostSendsFilter(u: Subscriber, posts: seq<Post>)
    ensures var r := PostSends(u, posts);
      var n := FirstBlocked(u, posts);
      && r.sent == Deliveries(u.cid, Filtered(u, posts[..n]))
      && (r.completed <==> n == |posts|)
      && (r.completed <==> forall j :: 0 <= j < |posts| && Reaches(u, posts[j]) ==> |posts[j].text| > 0)
      && (r.completed ==> r.sent == Deliveries(u.cid, Filtered(u, posts)))
      && (r.completed && !u.noPlusOne ==> r.sent == Deliveries(u.cid, posts))
  {
    var r := PostSends(u, posts);
    var n := FirstBlocked(u, posts);
    assert posts[..|posts|] == posts;
    if |posts| > 0 {
      var rest := posts[1..];
      PostSendsFilter(u, rest);
      var h := PostSend(u, posts[0]);
      var t := PostSends(u, rest);
      if n > 0 {
        var m := FirstBlocked(u, rest);
        assert n == 1 + m;
        var pre := posts[..n];
        assert pre[0] == posts[0] && pre[1..] == rest[..m];
        var f := Filtered(u, rest[..m]);
        assert Filtered(u, pre) == (if Reaches(u, posts[0]) then [posts[0]] else []) + f;
        assert r.sent == h.sent + t.sent;
        if Reaches(u, posts[0]) {
          assert ([posts[0]] + f)[1..] == f;
          assert Deliveries(u.cid, [posts[0]] + f) == [Delivery(u.cid, posts[0].text)] + Deliveries(u.cid, f);
        } else {
          assert [] + f == f;
        }
      }
    }
    if r.completed && !u.noPlusOne {
      FilterKeepsAllForOptIn(u, posts);
    }
  }

  /** The posts that pass the filter for `u`. */
  function Filtered(u: Subscriber, posts: seq<Post>): seq<Post>
  {
    if |posts| == 0 then [] else (if Reaches(u, posts[0]) then [posts[0]] else []) + Filtered(u, posts[1..])
  }

  /** A user who did not opt out is offered every post. */
  lemma {:induction false} FilterKeepsAllForOptIn(u: Subscriber, posts: seq<Post>)
    requires !u.noPlusOne
    ensures Filtered(u, posts) == posts
  {
    if |posts| > 0 {
      FilterKeepsAllForOptIn(u, posts[1..]);
      assert [posts[0]] + posts[1..] == posts;
    }
  }

  /** An opted-out user is offered exactly the posts that are not `+1`. */
  lemma {:induction false} FilterDropsPlusOne(u: Subscriber, posts: seq<Post>)
    requires u.noPlusOne
    ensures forall k :: 0 <= k < |Filtered(u, posts)| ==> !Filtered(u, posts)[k].plusOne
    ensures forall j :: 0 <= j < |posts| && !posts[j].plusOne ==> posts[j] in Filtered(u, posts)
  {
    if |posts| > 0 {
      FilterDropsPlusOne(u, posts[1..]);
      assert forall j :: 0 < j < |posts| ==> posts[j] == posts[1..][j - 1];
    }
  }

  /**
   * One pass of `updateTopics` over the store's entries: for each topic, each subscriber, each
   * post, the filtered posts are handed to `sendMsg`. `updates` gives what `updateTopic`
   * returns for each topic. The pass ends early when something raises.
   */
  method DeliverPass(entries: seq<Entry>, updates: string -> TopicUpdate) returns (sent: seq<Delivery>, completed: bool)
    ensures Run(sent, completed) == PassSends(entries, updates)
  {
    sent := [];
    var i := 0;
    while i < |entries|
      invariant 0 <= i <= |entries|
      invariant Then(Run(sent, true), PassSends(entries[i..], updates)) == PassSends(entries, updates)
    {
      assert entries[i..][1..] == entries[i + 1..];
      var e := entries[i];
      var res := updates(e.topic);
      ghost var tail := PassSends(entries[i + 1..], updates);
      ghost var here := EntrySends(e, res);
      assert PassSends(entries[i..], updates) == Then(here, tail);
      ThenAssoc(Run(sent, true), here, tail);
      if res.Raises? || (res.NoPosts? && |e.users| > 0) {
        assert here == Run([], false);
        assert sent + [] == sent;
        return sent, false;
      }
      if res.Posts? {
        var more := DeliverEntry(e.users, res.posts);
        assert more == here;
        if !more.completed {
          return sent + more.sent, false;
        }
        sent := sent + more.sent;
      } else {
        assert here == Run([], true);
        assert sent + [] == sent;
      }
      assert Then(Run(sent, true), tail) == PassSends(entries, updates);
      i := i + 1;
    }
    assert entries[i..] == [];
    return sent, true;
  }

  /** The two inner loops of `updateTopics` for one entry. */
  method DeliverEntry(users: seq<Subscriber>, posts: seq<Post>) returns (r: Run)
    ensures r == UserSends(users, posts)
  {
    var sent := [];
    for a := 0 to |users|
      invariant Then(Run(sent, true), UserSends(users[a..], posts)) == UserSends(users, posts)
    {
      assert users[a..][1..] == users[a + 1..];
      var u := users[a];
      ghost var later := UserSends(users[a + 1..], posts);
      assert UserSends(users[a..], posts) == Then(PostSends(u, posts), later);
      ThenAssoc(Run(sent, true), PostSends(u, posts), later);
      assert posts[0..] == posts;
      for b := 0 to |posts|
        invariant Then(Then(Run(sent, true), PostSends(u, posts[b..])), later) == UserSends(users, posts)
      {
        ghost var rest := PostSends(u, posts[b + 1..]);
        var m := posts[b];
        assert posts[b..][1..] == posts[b + 1..];
        assert PostSends(u, posts[b..]) == Then(PostSend(u, m), rest);
        ThenAssoc(Run(sent, true), PostSend(u, m), rest);
        if Reaches(u, m) {
          if |m.text| == 0 {
            assert Then(Run(sent, true), PostSend(u, m)) == Run(sent, false);
            return Run(sent, false);
          }
          assert Then(Run(sent, true), PostSend(u, m)) == Run(sent + [Delivery(u.cid, m.text)], true);
          sent := sent + [Delivery(u.cid, m.text)];
        } else {
          assert Then(Run(sent, true), PostSend(u, m)) == Run(sent, true);
        }
      }
      assert posts[|posts|..] == [];
      assert Then(Run(sent, true), Run([], true)) == Run(sent, true);
    }
    assert users[|users|..] == [];
    assert Then(Run(sent, true), Run([], true)) == Run(sent, true);
    return Run(sent, true);
  }
}
