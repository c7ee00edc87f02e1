# COWNotifier core, modelled in Dafny

COWNotifier is a Telegram bot. It follows the newsgroups of a university NNTP server and sends new posts to the chats that subscribed to them. The posts are rendered from the forum's Markdown into the MarkdownV2 style of the Telegram Bot API. The bot also tells a student when a post mentions their student number. This project models the bot's sequential logic and proves properties of it:

- `text.dfy` (`Text`): the Python string operations the core relies on: `''.join`, `sep.join`, `str.split` with a one-character separator, `str.split()` with no argument, `str.strip`, `str(int)`, `str(bool)` and `s * n`.
- `wrappers.dfy` (`Wrappers`): `Option`.
- `markdown_renderer.dfy` (`MarkdownRenderer`): the MarkdownV2 escape codec, the base-62 decoder of upload tokens, and the renderer's node handlers, each acting on children that are already rendered.
- `mention_manager.dfy` (`MentionManager`): the student-number pattern and the one-pass line scanner. The scanner emits mention events instead of sending them.
- `news_parser.dfy` (`NewsParser`): the `+1` classifier, the header block, and the article object. The article memoises its render and is poisoned for good by a failure.
- `news_reader.dfy` (`NewsReader`): the per-group cursor map, the reconnect back-off, the topic lookups, and the fetch loop that runs after GROUP (section 6.1.1 of RFC 3977) and ARTICLE (section 6.2.1 of RFC 3977).
- `html_splitter.dfy` (`HtmlSplitter`): the splitter that cuts HTML into messages of at most 4095 characters. At each cut it closes the open tags and reopens them in the next message.
- `bot.dfy` (`Bot`): chunked sending, update parsing, command dispatch, the replies chosen by the store's result codes, and one pass of the delivery loop with its `+1` filter.

Everything outside the process is a parameter of the operation that uses it:

- the Telegram API, as `accept(k, slice)`
- the store's answers, as functions of each call's arguments
- the alias lookup, as `lookup`
- the emoji table, as a map
- the NNTP replies, as `group`, `fetch` and `attempts`
- the saved cursor file, as `saved`
- the conversion of a post to Telegram Markdown and the mention scan inside `parseMessage`, as their outcomes

Where the Python code raises an exception, the model returns an explicit error value (`None`, `GroupFailed`, `UnknownTopic`, `EmptyStack`, `Mismatch`, an incomplete `Run`). It does not exclude those inputs by a precondition. The one exception is the `NameError` of the splitter's constructor and `reset`, listed under "## Left out".

Where the code and its design notes disagree, the model follows the code:

- **`codespan`** wraps its text in backticks without escaping it.
- **The mention scanner** reports the stripped line itself as the alias. It applies no further normalisation and skips no quoted lines.
- **`updateTopic`** sets the cursor to the server's `last` even when that is below the saved cursor.
- **Escaping** has no inverse in the source. `Unescape` is defined here so that losslessness and injectivity can be stated. `ClientRead` is defined here as the way a MarkdownV2 client reads escaped text: a backslash makes the next character ordinary, and an unescaped reserved character is markup.
- **Escaping outside code** leaves the backslash unescaped, so a text with a backslash before a reserved character is misread (see "## Findings"). `Escape`, `TextRun`, `Image` and `Render` model the code as written. `TextRunCorrected` and `ImageCorrected` are the corrected handlers: they escape over `TextEscapes`, which adds the backslash.

## Model

| member | source | states |
|---|---|---|
| MarkdownRenderer.Escape | markdownrenderer.py:63-81 | The loop's result is `Escaped` over the mode's set: a backslash is inserted before each of the 18 reserved characters (before only `` ` `` and `\` in code), and every other character is copied. |
| MarkdownRenderer.EscapedLength | markdownrenderer.py:76-80 | The output is the input's length plus the number of characters that get escaped. |
| MarkdownRenderer.EscapedCodeIdentity | markdownrenderer.py:73-80 | In code mode, a text without backticks and backslashes comes out unchanged, including the 16 other reserved characters. |
| MarkdownRenderer.EscapedNoBareReserved | markdownrenderer.py:76-80 | In the output, every character of the escaped set other than a backslash has a backslash right before it, including at position 0. |
| MarkdownRenderer.UnescapeEscaped | markdownrenderer.py:76-80 | Deleting the backslash inserted before each escaped character gives back the input, whatever the set. |
| MarkdownRenderer.EscapeInjective | markdownrenderer.py:63-81 | Two texts with the same escape are equal. |
| MarkdownRenderer.ClientReadsEscaped | markdownrenderer.py:63-81 | A MarkdownV2 client reads an escaped text back as exactly that text, whenever the escaped set holds the backslash and every reserved character of the mode. |
| MarkdownRenderer.ClientReadsCode | markdownrenderer.py:73-80 | Inside code the source's set suffices: the client reads back exactly the text. |
| MarkdownRenderer.ClientReadsText | markdownrenderer.py:68-80 | With the backslash added to the set, the client reads every text escaped outside code back as it was. |
| MarkdownRenderer.Alphabet | markdownrenderer.py:13 | The alphabet has 62 characters, position by position as the three ranges give them. |
| MarkdownRenderer.AlphabetIsDigitsLowerUpper | markdownrenderer.py:13 | The alphabet is `0-9`, then `a-z`, then `A-Z`. |
| MarkdownRenderer.Digit62 | markdownrenderer.py:20 | `alphabet.index(c)` is the first position of `c` in the alphabet. It is None exactly when `c` does not occur, where the source raises. |
| MarkdownRenderer.Hex | markdownrenderer.py:21 | The output is non-empty and made of lowercase hexadecimal digits only. |
| MarkdownRenderer.HexCorrect | markdownrenderer.py:21 | Reading `Hex(n)` back in base 16 gives `n`, and it has no leading zero. |
| MarkdownRenderer.DecodeBase62 | markdownrenderer.py:12-21 | The loop over the reversed token returns the hexadecimal numeral of the sum of index(e[k]) * 62^(len-1-k). It returns None when a character is outside the alphabet. |
| MarkdownRenderer.Paragraph | markdownrenderer.py:107-109 | The children are joined with nothing in between, so the result is as long as they are together. |
| MarkdownRenderer.TextRun | markdownrenderer.py:111-113 | A text run is escaped outside code over the source's 18-character set. Every reserved character has a backslash right before it, deleting those backslashes gives the text back, and a client reads it back as exactly the text when the text holds no backslash. It is one character longer per escaped character. |
| MarkdownRenderer.TextRunAsWrittenMisreads | markdownrenderer.py:111-113 | The text run of `\*` is `\\*`, which a MarkdownV2 client rejects for its bare `*`. |
| MarkdownRenderer.TextRunCorrected | markdownrenderer.py:111-113 | With the backslash escaped too, a client reads every text run back as exactly the text. It is one character longer per escaped character. |
| MarkdownRenderer.Emoji | markdownrenderer.py:115-118 | A known `:name:` gives the table's value. Any other name gives the literal `:name:`. |
| MarkdownRenderer.ListItem | markdownrenderer.py:137-139 | An item passes its children on unchanged, with its level lowered by one. |
| MarkdownRenderer.EntryLines | markdownrenderer.py:129-134 | Child `j` of an entry becomes `padding + bullet(n + j) + " " + child`. The lines are joined by newlines, and the number after the entry is `n` plus the number of children. |
| MarkdownRenderer.List | markdownrenderer.py:120-135 | `list` equals `ListSpec`. The numbering starts at `start` (1 when absent) and runs on across every child of every entry. Bullets are `N\.` or `\-`, and each line is padded by `2*level + 2*(depth-1)` spaces. |
| MarkdownRenderer.Strong | markdownrenderer.py:149-151 | The joined children are between two asterisks, and nothing else is added. |
| MarkdownRenderer.Emphasis | markdownrenderer.py:153-155 | The joined children are between two underscores, and nothing else is added. |
| MarkdownRenderer.BlockCode | markdownrenderer.py:157-165 | The block is a fence, then the first word of the info string (empty without info), a newline, the code and a closing fence. The language and the code are escaped for code. It is None exactly when the info string has no word, where `split()[0]` raises. |
| MarkdownRenderer.Link | markdownrenderer.py:167-175 | The link text is the joined children, else the title, else the target itself. |
| MarkdownRenderer.ImageTitle | markdownrenderer.py:179-182 | The caption is never empty. It is the title, else the alt text, else `Image`. |
| MarkdownRenderer.Image | markdownrenderer.py:177-189 | It is None exactly for an upload source whose rest is not `TOKEN.EXT` with a base-62 token, where the source raises. Otherwise it is a link whose text is the caption escaped as a text run, over the source's set. |
| MarkdownRenderer.ImageCorrected | markdownrenderer.py:177-189 | The same failures as `Image`. Otherwise it is a link whose text is the caption escaped over the corrected set, so that a client reads the caption back. |
| MarkdownRenderer.ImageUpload | markdownrenderer.py:183-189 | `upload://TOKEN.EXT` with a base-62 token links to the uploads URL followed by the token's hexadecimal value. Only the caption is escaped, in `Image` and in `ImageCorrected`. |
| MarkdownRenderer.ImageOther | markdownrenderer.py:184-189 | Any other source is kept as it is. Only the caption is escaped, in `Image` and in `ImageCorrected`. |
| MarkdownRenderer.ImageUploadMalformed | markdownrenderer.py:185 | An upload source with no dot, or more than one, makes the handler raise, in `Image` and in `ImageCorrected`. |
| MarkdownRenderer.UnquoteQuoteNewlines | markdownrenderer.py:193 | Adding quote markers after the newlines loses nothing, because removing them gives the body back. |
| MarkdownRenderer.QuoteNewlinesMarked | markdownrenderer.py:193 | Every newline of the quoted body is followed by `> `, and the body grows by two characters per newline. |
| MarkdownRenderer.Quote | markdownrenderer.py:191-196 | A quote is the author and post permalink header, then `\> _`, then the marked body, then `_`. The body can be recovered. |
| MarkdownRenderer.Codespan | markdownrenderer.py:198-200 | The text is between two backticks, unchanged. |
| MarkdownRenderer.Render | markdownrenderer.py:92-105 | A rule without a handler renders as the empty string. Only `block_code` and `image` can raise. A text run renders to a string from which deleting the escaping backslashes gives the text back, and which a client reads back as the text when it holds no backslash. |
| MentionManager.StudentNumberForms | mention_manager.py:6-10 | `IsStudentNumber`, the pattern `^e?\d{6,7}$`, accepts exactly six or seven digits, or `e` followed by six or seven digits. |
| MentionManager.HtmlEscape | mention_manager.py:19-21 | The escaped field is never shorter than the field, and a field without `&`, `<`, `>`, `"` and `'` is unchanged. |
| MentionManager.HtmlEscapeNoMarkup | mention_manager.py:19-21 | An escaped field contains no `<`, `>`, `"` or `'`. |
| MentionManager.HtmlUnescapeEscape | mention_manager.py:19-21 | Escaping loses nothing: the field is recovered from its escaped form. |
| MentionManager.ReadMentionText | mention_manager.py:13-21 | A reader of the mention text recovers the alias, the newsgroup and the header exactly as they were, whatever characters they hold, and then the line number. |
| MentionManager.SendMentions | mention_manager.py:31-33 | One event per id the lookup returns, in that order. |
| MentionManager.ParseMentions | mention_manager.py:23-37 | The loop's events are those of the line-by-line reference scan from header `""` and line 0. |
| MentionManager.ScanReportsEveryMatch | mention_manager.py:24-37 | The scan reports each matching line, in order, with its stripped text as the alias. It is reported under the last non-matching line before it (or `""`), numbered by its distance from that line (or from the start, counting from 0). |
| MentionManager.LastHeaderIsLast | mention_manager.py:34-36 | The header in force is the last non-matching line: every line after it matches, and every line matches when there is none. |
| MentionManager.HeaderNeverMatches | mention_manager.py:34-35 | A reported header is never itself a student number. |
| MentionManager.FirstLineExample | mention_manager.py:24-33 | A number on the first line is reported under header `""` at line 0. |
| MentionManager.HeaderExample | mention_manager.py:34-37 | A number right after a header line is reported under that header at line 1. |
| NewsParser.IsPlusOneMessage | newsparser.py:9-10 | A message is a `+1` exactly when it starts with `+1` and is shorter than ten characters. |
| NewsParser.HeaderFence | newsparser.py:60-66 | The header is a fenced block whose body a MarkdownV2 client reads back as the header text. |
| NewsParser.HeaderHasFiveLines | newsparser.py:61-65 | When no field holds a newline, the header text is exactly the five lines From, Newsgroup, Subject, Date and is_plus_one. |
| NewsParser.Article.constructor | newsparser.py:33-44 | A new article is not broken, and it has no cached render and no cached classification. |
| NewsParser.Article.IsPlusOne | newsparser.py:46-49 | The first call classifies and caches the result. Later calls return the cache without classifying again. |
| NewsParser.Article.MakeHeader | newsparser.py:60-66 | The header of the article's fields and its classification. |
| NewsParser.Article.ParseMessage | newsparser.py:68-80 | It is a no-op on a broken article. A failure marks the article broken and renders nothing. Success renders the header followed by the paragraphs joined by blank lines. The scan counter goes up by one. |
| NewsParser.Article.Parse | newsparser.py:51-55 | It renders only while there is no render. The mention scan has then run exactly once over the article's life, and a cached render is returned unchanged. |
| NewsReader.MergedGroups | newsreader.py:29-35 | The merged map has exactly the server's groups. A group in the saved map keeps its saved cursor, and any other takes the server's `last` from the last list entry with its name. |
| NewsReader.MergedOrderKeys | newsreader.py:29-35 | The iteration order lists every key of the map exactly once. |
| NewsReader.Reader.InitConnection | newsreader.py:18-38 | The loop builds the merged map and its insertion order, and marks the reader initialised. |
| NewsReader.Reader.constructor | newsreader.py:12-16 | A new reader is initialised with the merged map. |
| NewsReader.BackoffCapped | newsreader.py:46-55 | The wait after `k` failures is `min(60, 2^k)`, so always between 1 and 60 seconds. |
| NewsReader.Connect | newsreader.py:46-57 | The loop stops at the first successful attempt, having waited `Backoff(k)` after the `k`-th failure. If every attempt given fails, it is still retrying. |
| NewsReader.Reader.ValidTopic | newsreader.py:62-63 | A topic is valid exactly when it is a tracked group. |
| NewsReader.FirstEnding | newsreader.py:65-69 | The group found ends with the topic. None is found exactly when no group does. |
| NewsReader.FirstEndingIsFirst | newsreader.py:65-69 | No group before the one found ends with the topic. |
| NewsReader.Reader.Closest | newsreader.py:65-69 | The search returns the first tracked group, in iteration order, whose name ends with the topic. |
| NewsReader.Reader.UpdateTopic | newsreader.py:71-97 | The view of each way the call can end: not initialised gives `[]`, a failed GROUP gives None with the map unchanged, and an untracked topic raises. Otherwise it returns the fetched articles of `max(saved+1, first)..last` and sets the topic's cursor to `last`, with no other cursor changed. |
| NewsReader.FetchRangeProperties | newsreader.py:83-93 | The collected articles lie in the range and were fetched successfully. They come in strictly ascending number order, and every successful fetch is collected. |
| NewsReader.NoRefetch | newsreader.py:83-85 | No article at or below the saved cursor, or above `last`, is fetched. |
| HtmlSplitter.Splitter.constructor | html_splitter.py:4-8 | A new splitter has no open tags, no finished messages and an empty current message. |
| HtmlSplitter.OpeningLen | html_splitter.py:10-11 | It is the length of all the opening tags written out. |
| HtmlSplitter.ClosingLen | html_splitter.py:13-14 | It is the length of all the closing tags written out. |
| HtmlSplitter.CurrentLen | html_splitter.py:16-17 | It is the length of the current message's pieces joined. |
| HtmlSplitter.Openings | html_splitter.py:28-29 | The opening tags come in stack order. |
| HtmlSplitter.Closings | html_splitter.py:23-24 | The closing tags come in reverse stack order. |
| HtmlSplitter.FinishProperties | html_splitter.py:22-29 | A finish emits one message: the pieces, then the closing tags, exactly as long as the total. Earlier messages are kept, the stack is unchanged, and the next message starts with the opening tags. |
| HtmlSplitter.Splitter.FinishMsg | html_splitter.py:22-29 | The two loops perform `Finish` on the object's fields. |
| HtmlSplitter.EntityRefProperties | html_splitter.py:31-37 | The reference is appended whole. There is a cut first exactly when the current message, the closing tags and the reference exceed 4095. |
| HtmlSplitter.Splitter.HandleEntityref | html_splitter.py:31-37 | The handler performs `EntityRef` on the object's fields. |
| HtmlSplitter.DataPieces | html_splitter.py:55-63 | The pieces appended concatenate to exactly the input data. |
| HtmlSplitter.DataStepProgress | html_splitter.py:56-63 | Each round consumes data or makes room by cutting, so the loop ends when the tags leave room. |
| HtmlSplitter.DataStepBounded | html_splitter.py:57-62 | A round never takes more than the room left, so a bounded state stays bounded. |
| HtmlSplitter.DataBounded | html_splitter.py:55-63 | The whole loop keeps every message, finished or current, within 4095 characters. |
| HtmlSplitter.Splitter.HandleData | html_splitter.py:55-63 | The loop performs `Data` on the object's fields. |
| HtmlSplitter.EndTagKeepsTotal | html_splitter.py:65-68 | Closing the top tag leaves the total unchanged and keeps a bounded state bounded. |
| HtmlSplitter.Splitter.HandleEndtag | html_splitter.py:65-68 | It pops the stack, and on a match it appends the closing tag. It reports a mismatch or an empty stack, where the source raises. |
| HtmlSplitter.Splitter.GetMessages | html_splitter.py:70-73 | It performs exactly one more finish, then returns every message. |
| HtmlSplitter.Splitter.Reset | html_splitter.py:75-79 | The stack, the messages and the current message become empty. |
| Bot.ChunksProperties | bot.py:223-225 | The slices make up the text. Each has 1 to 4096 characters, and all but the last have exactly 4096. |
| Bot.SentPrefix | bot.py:223-228 | What is sent before a stop is a prefix of the text. |
| Bot.SendMsg | bot.py:218-229 | It sends the slices in order and stops after the first failed request, every earlier request having succeeded. It returns the last request's outcome, and the whole text is sent when that outcome is true. It returns None on an empty text, where the source reads an unset variable. |
| Bot.DisplayName | bot.py:244-255 | The username when it is present and non-empty, else first name, space, last name. |
| Bot.Parse | bot.py:231-265 | It fails exactly when the update has neither a message nor an edited message. The command is the first space-separated part of the text. |
| Bot.ParseCommand | bot.py:243 | The command is the longest space-free prefix of the text. |
| Bot.ParseNoText | bot.py:237-238 | A message without text reads as `n n`, with command `n`. |
| Bot.StartReply | bot.py:49-53 | Code 0 welcomes, code 1 welcomes back, and any other code gives the error text. |
| Bot.AddReply | bot.py:86-92 | Codes 0, 1 and 2 give added, exists and not found. Any other code gives the error text. |
| Bot.DeleteReply | bot.py:119-125 | Codes 0, 1 and 2 give deleted, not in list and not found. Any other code gives the error text. |
| Bot.PlusOneReply | bot.py:61-63 | Code 0 gives updated, and any other code gives the error text. |
| Bot.ListText | bot.py:132-139 | No topics gives the you-haven't-added note. |
| Bot.TopicLines | bot.py:135-137 | The text of a non-empty list ends in CRLF. |
| Bot.TopicLinesJoin | bot.py:135-137 | The text of a non-empty list is the topics joined by CRLF, with a final CRLF. |
| Bot.Handler | bot.py:203-216 | The handler table. Only the name `start` names the start handler. |
| Bot.HandlerEffects | bot.py:46-151 | Every handler but the announcement's makes its store calls and then replies once, to the sender. An announcement from anyone but the announcer does nothing. |
| Bot.StartEffects | bot.py:46-56 | The start handler registers the user first, and replies only when asked to. |
| Bot.Broadcast | bot.py:106-107 | The announcement goes to every chat, in the store's order. |
| Bot.Process | bot.py:267-283 | Handling fails exactly when the update has no message or the command is empty. |
| Bot.ProcessRejects | bot.py:272-279 | A command without `/` gets the chatty reply, and an unknown name gets the not-implemented reply. Nothing else happens in either case. |
| Bot.ProcessRegistersFirst | bot.py:281-283 | A known command other than `start` first registers the sender without a reply, then runs its handler. `start` runs once, with its reply. |
| Bot.TopicCommands | bot.py:76-127 | `/add` and `/delete` with fewer than two words reply `invalid` and do not call the store. Otherwise they make one store call for the second word and send one reply. |
| Bot.AnnouncementOnlyFromAnnouncer | bot.py:96-107 | Only user 147926496's announcements go out, one per chat. |
| Bot.PostSendsFilter | bot.py:37-40 | A user is sent exactly the posts that pass the filter, in order, up to the first of them with an empty text, where the run stops. The run completes exactly when no such post is empty. Then every post that passes is sent, once each and in order, and a user who did not opt out gets every post. |
| Bot.FirstBlocked | bot.py:38-40 | The run for one user stops at the first post that passes the filter and has an empty text, where `sendMsg` raises. Every earlier post that passes has a text. |
| Bot.FilterKeepsAllForOptIn | bot.py:39-40 | A user who did not opt out is offered every post. |
| Bot.FilterDropsPlusOne | bot.py:39-40 | An opted-out user is offered exactly the posts that are not `+1`. |
| Bot.DeliverEntry | bot.py:37-40 | The two inner loops for one topic equal `UserSends`: for each user, each post that passes the filter, in order. |
| Bot.DeliverPass | bot.py:29-44 | One pass over the store's entries equals `PassSends`. The pass stops at the first exception. |
| Text.SplitFirst | bot.py:243 | The first part of `split(' ')` is the longest prefix without the separator. |
| Text.StripProperties | mention_manager.py:27 | `strip()` gives a contiguous part of the line with no whitespace at either end. Everything removed, on the left and on the right, is whitespace, and the result is empty exactly when the line is all whitespace. |
| Text.FirstWord | markdownrenderer.py:161 | `split()[0]` is the first word of the text: the non-empty run of non-whitespace that starts after the leading whitespace and ends at the next whitespace or at the end. There is none, and `split()[0]` raises, exactly when the text is all whitespace. |

## Left out

- The mistune parser and its emoji and quote plugins (markdownrenderer.py:24-60, markdownrenderer.py:203-207) are third-party parsing. The handlers are modelled on children that are already rendered.
- The `emoji_codepoints` table is not part of this model. It is a parameter.
- `print`, logging and `traceback` output are left out, as is the `logger.error` in the default handler.
- `getHumanReadableDate` is `datetime` parsing and formatting. The article keeps the formatted date as a string.
- `\d` in the student-number pattern also matches non-ASCII digits in Python. The model accepts ASCII `0`-`9` only.
- `str.strip()` and `str.split()` use the whitespace set of `str.isspace()`. Unicode whitespace beyond that set is not modelled.
- The store (database.py) is an oracle. `db.ping()` calls are left out, and each store answer is a function of the call's arguments, so repeated calls are assumed to answer alike.
- NNTP, HTTP and Telegram requests are oracles. That covers `makeRequest`, `setWebhook` and `conn.quit`.
- `self.close()` in `get_messages` is not modelled. It is `HTMLParser.close()`, the tokenizer's flush, which can hand buffered text to `handle_data` before the final `finishMsg`. The model's `GetMessages` assumes nothing is buffered.
- The reading and writing of the cursor file are not modelled. The saved map comes in as a parameter, and the writes are left out.
- `time.time`, `time.sleep` and the 60-second reconnect in `updateTopic` are not modelled. `Connect` reports the waits it would make rather than making them.
- In `initConnection`, the `int(g.last)` conversion is not modelled. The server's `last` is already a number.
- `handle_starttag` is not modelled. It uses the undefined name `ptag`, and its pushes sit inside the overflow test, so its behaviour is not meaningful.
- `HtmlSplitter.Splitter.constructor` and `HtmlSplitter.Splitter.Reset` return normally. In the source, `__init__` (html_splitter.py:5) and `reset` (html_splitter.py:80) call `super(MyParser, self)` on the undefined name `MyParser`, which raises `NameError`. `__init__` raises before it sets any field. The model gives both the behaviour of the field assignments.
- `HtmlSplitter.Splitter.HandleData` requires the open tags to leave room for text (opening plus closing below 4095). Without that room the source loops forever.
- `reset`'s `dup_newline` flag and the tokenizer's own `reset` are not modelled. The flag is read nowhere in the core.
- Threads, the queue, the endless `updateTopics` and `run` loops, the one-second sleep, and `cowBot.__init__` are left out. `DeliverPass` models one pass of the loop body.
- The callers pass arguments the callees do not take: `updateTopic(topic)` at bot.py:36 and `newsArticle(raw_msg, mention_manager, topic)` at newsreader.py:89. Each function is modelled by its own definition. Fetched articles are numbers with their raw text, and posts are `(plusOne, text)` pairs. Subscribers are `(cid, noPlusOne)` pairs, the shape bot.py:39-40 reads with `user[0]` and `user[1]`; the store's `getTopics` (database.py:104-107) lists bare chat ids instead, on which those subscripts would raise `TypeError`. The model takes the pair that the loop reads as the shape it was written for.
- `NewsParser.Article.ParseMessage` models the mention scan and the conversion as two outcomes. Mentions already sent by a scan that fails later are not modelled here. The scan itself is `MentionManager.ParseMentions`.
- `Bot.Process` lists every reply as sent. In the source, `sendMsg` with an empty text raises. That can happen for `/listall` with no groups, or an announcement whose second word is empty, and the effects that follow are then not performed.
- `Bot.DeliverPass` models the empty-text exception of `sendMsg` as the end of the pass. It does not model the slicing of long posts into several requests, which `Bot.SendMsg` covers.
- `NewsReader.Reader.UpdateTopic` reports a failed GROUP as `GroupFailed`. It does not model the reconnect that follows.

## Findings

| source | as written | input that shows it | evidently intended | confidence | as-written member | corrected member |
|---|---|---|---|---|---|---|
| markdownrenderer.py:68-72 | Outside code, `escape` escapes the 18 reserved characters but not the backslash. | The text `\*` is escaped to `\\*`. A MarkdownV2 client reads that as a literal backslash followed by a bare `*`, so a message sent with MarkdownV2 parsing would be rejected. The bot's own `sendMsg` sends with `parse_mode` `HTML` (bot.py:222), so this concerns the renderer's output wherever it is sent as MarkdownV2. | The backslash is escaped outside code too, so that the client reads back exactly the text. | medium, not executed | MarkdownRenderer.TextRunAsWrittenMisreads | MarkdownRenderer.ClientReadsText |
