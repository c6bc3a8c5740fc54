/** `MatrixChatBot.get_conversation_context` and `_build_conversation_context`: the buffer
    rendered as the text handed to the chat model. */
module Context {
  import opened Options
  import opened Text
  import opened Clock
  import opened History

  const Header := "Recent conversation history:"
  const NoHistory := "No previous conversation history."
  const ReplyInstruction := "\n\nPlease respond to the most recent message considering this conversation context."
  const SystemRole := "system"

  /** A Matrix user id reduced to a display name: `sender.split(":")[0]` (the text before the
      first `:`), with every `@` removed. */
  function SenderName(sender: string): (name: string)
    ensures ':' !in name && '@' !in name
  {
    var local := PrefixBefore(sender, ':');
    RemoveAllKeeps(local, '@', ':');
    RemoveAll(local, '@')
  }

  /** The name is taken from the first element of the split, as the source does. */
  lemma SenderNameFromSplit(sender: string)
    ensures SenderName(sender) == RemoveAll(Split(sender, ':')[0], '@')
  {
  }

  /** A full Matrix id `@local:server` is shown as its local part. */
  lemma {:induction false} SenderNameOfMatrixId(local: string, server: string)
    requires ':' !in local && '@' !in local
    ensures SenderName("@" + local + ":" + server) == local
  {
    var at := "@" + local;
    assert "@" + local + ":" + server == at + [':'] + server;
    PrefixBeforeFirst(at, ':', server);
    assert at[1..] == local;
    assert RemoveAll(at, '@') == RemoveAll(local, '@');
    RemoveAllAbsent(local, '@');
  }

  /** Normalising a name that is already normalised changes nothing. */
  lemma SenderNameIdempotent(sender: string)
    ensures SenderName(SenderName(sender)) == SenderName(sender)
  {
    var name := SenderName(sender);
    PrefixBeforeAbsent(name, ':');
    RemoveAllAbsent(name, '@');
  }

  /** The configured system account, compared the way Python does: an absent or empty
      `system_username` is falsy and matches nobody. */
  predicate IsSystemAccount(systemUsername: Option<string>, name: string) {
    systemUsername.Some? && systemUsername.value != "" && name == systemUsername.value
  }

  /** The role shown for a sender: `system` for the system account, the name itself otherwise. */
  function Role(systemUsername: Option<string>, name: string): string {
    if IsSystemAccount(systemUsername, name) then SystemRole else name
  }

  /** A line is attributed to `system` exactly when it comes from the configured system account
      (or from a user whose name is literally `system`); every other sender keeps its name. */
  lemma RoleIsSystem(systemUsername: Option<string>, name: string)
    ensures Role(systemUsername, name) == SystemRole <==> IsSystemAccount(systemUsername, name) || name == SystemRole
    ensures Role(systemUsername, name) != SystemRole ==> Role(systemUsername, name) == name
  {
  }

  /** A message sent from the system account's Matrix id is attributed to `system`. */
  lemma SystemAccountShownAsSystem(account: string, server: string)
    requires account != "" && ':' !in account && '@' !in account
    ensures Role(Some(account), SenderName("@" + account + ":" + server)) == SystemRole
  {
    SenderNameOfMatrixId(account, server);
  }

  /** Two different names get the same role only when one is the system account and the
      other is a user literally called `system`. */
  lemma RolesCollideOnlyOnSystem(systemUsername: Option<string>, n1: string, n2: string)
    requires n1 != n2 && Role(systemUsername, n1) == Role(systemUsername, n2)
    ensures Role(systemUsername, n1) == SystemRole
    ensures IsSystemAccount(systemUsername, n1) || IsSystemAccount(systemUsername, n2)
  {
  }

  /** One line of context: `role: body`, prefixed with `[YYYY-MM-DD HH:MM] ` when timestamps are asked for. */
  function RenderLine(rec: Record, systemUsername: Option<string>, includeTimestamps: bool): string {
    StampPrefix(rec.timestamp, includeTimestamps) + Role(systemUsername, SenderName(rec.sender)) + ": " + rec.message
  }

  /** `[YYYY-MM-DD HH:MM] ` when timestamps are asked for, nothing otherwise. */
  function StampPrefix(t: DateTime, includeTimestamps: bool): (p: string)
    ensures |p| == if includeTimestamps then 19 else 0
    ensures includeTimestamps ==> p[0] == '[' && p[17..] == "] " && ParseMinute(p[1..17]) == Some(MinuteOf(t))
  {
    if includeTimestamps then
      ParseFormatMinute(t);
      var p := "[" + FormatMinute(t) + "] ";
      assert p[1..17] == FormatMinute(t);
      p
    else ""
  }

  /** What a reader of one context line can recover from it. */
  datatype ParsedLine = ParsedLine(stamp: Option<Minute>, role: string, body: string)

  /** Splits `role: body` at the first colon. */
  function ParseRoleAndBody(text: string): Option<(string, string)> {
    var role := PrefixBefore(text, ':');
    if |role| + 2 <= |text| && text[|role| + 1] == ' ' then Some((role, text[|role| + 2..])) else None
  }

  /** Reads one context line back; `None` for a line that no record renders to. */
  function ParseLine(line: string, includeTimestamps: bool): Option<ParsedLine> {
    if !includeTimestamps then
      match ParseRoleAndBody(line)
      case None => None
      case Some((role, body)) => Some(ParsedLine(None, role, body))
    else if |line| >= 19 && line[0] == '[' && line[17] == ']' && line[18] == ' ' then
      match (ParseMinute(line[1..17]), ParseRoleAndBody(line[19..]))
      case (Some(stamp), Some((role, body))) => Some(ParsedLine(Some(stamp), role, body))
      case _ => None
    else None
  }

  /** What the line of `rec` is meant to convey: its role, its body unaltered and, when
      asked for, the minute it was received. */
  function Expected(rec: Record, systemUsername: Option<string>, includeTimestamps: bool): ParsedLine {
    ParsedLine(if includeTimestamps then Some(MinuteOf(rec.timestamp)) else None,
               Role(systemUsername, SenderName(rec.sender)), rec.message)
  }

  lemma {:induction false} ParseRoleAndBodyOf(role: string, body: string)
    requires ':' !in role
    ensures ParseRoleAndBody(role + ": " + body) == Some((role, body))
  {
    var text := role + ": " + body;
    assert text == role + [':'] + (" " + body);
    PrefixBeforeFirst(role, ':', " " + body);
    assert text[|role| + 2..] == body;
  }

  /** Every rendered line reads back as its record's role, body and receive minute. */
  lemma RenderLineParses(rec: Record, systemUsername: Option<string>, includeTimestamps: bool)
    ensures ParseLine(RenderLine(rec, systemUsername, includeTimestamps), includeTimestamps)
            == Some(Expected(rec, systemUsername, includeTimestamps))
  {
    var role := Role(systemUsername, SenderName(rec.sender));
    var text := role + ": " + rec.message;
    ParseRoleAndBodyOf(role, rec.message);
    var line := RenderLine(rec, systemUsername, includeTimestamps);
    if includeTimestamps {
      var stamp := FormatMinute(rec.timestamp);
      assert line == "[" + stamp + "] " + text;
      ParseFormatMinute(rec.timestamp);
      StampedLineParses(stamp, text, MinuteOf(rec.timestamp), role, rec.message);
    } else {
      assert line == text;
    }
  }

  /** A stamp in brackets followed by `role: body` reads back as its three parts. */
  lemma {:induction false} StampedLineParses(stamp: string, text: string, minute: Minute, role: string, body: string)
    requires ParseMinute(stamp) == Some(minute)
    requires ParseRoleAndBody(text) == Some((role, body))
    ensures ParseLine("[" + stamp + "] " + text, true) == Some(ParsedLine(Some(minute), role, body))
  {
    var line := "[" + stamp + "] " + text;
    assert |stamp| == 16;
    assert line[1..17] == stamp;
    assert line[19..] == text;
  }

  /** A sender id without a line break gives a display name without one. */
  lemma SenderNameSingleLine(sender: string)
    requires '\n' !in sender
    ensures '\n' !in SenderName(sender)
  {
    var local := PrefixBefore(sender, ':');
    RemoveAllKeeps(local, '@', '\n');
  }

  /** A line stays one line when the sender id and the body have no line break. */
  lemma RenderLineSingleLine(rec: Record, systemUsername: Option<string>, includeTimestamps: bool)
    requires '\n' !in rec.sender && '\n' !in rec.message
    ensures '\n' !in RenderLine(rec, systemUsername, includeTimestamps)
  {
    SenderNameSingleLine(rec.sender);
    FormatMinuteSingleLine(rec.timestamp);
  }

  /** `list(history)[-max_messages:] if len(history) > max_messages else list(history)`,
      with Python's slice rules, so `max_messages == 0` keeps everything and a negative
      `max_messages` drops that many of the oldest. */
  function RecentMessages<T>(h: seq<T>, maxMessages: int): (r: seq<T>)
    ensures maxMessages >= 1 ==> r == Last(h, maxMessages)
    ensures maxMessages == 0 ==> r == h
    ensures maxMessages < 0 ==> r == h[Min(-maxMessages, |h|)..]
  {
    if |h| > maxMessages then h[SliceStart(-maxMessages, |h|)..] else h
  }

  /** Where Python starts the slice `s[i:]` of a sequence of length `n`. */
  function SliceStart(i: int, n: nat): (start: nat)
    ensures start <= n
  {
    if i < 0 then (if i + n < 0 then 0 else i + n) else (if i > n then n else i)
  }

  /** The rendered lines of `recs`, oldest first. */
  function Lines(recs: seq<Record>, systemUsername: Option<string>, includeTimestamps: bool): (lines: seq<string>)
    ensures |lines| == |recs|
  {
    if recs == [] then []
    else Lines(recs[..|recs| - 1], systemUsername, includeTimestamps)
         + [RenderLine(recs[|recs| - 1], systemUsername, includeTimestamps)]
  }

  /** The `i`-th line is the rendering of the `i`-th record. */
  lemma {:induction false} LinesAt(recs: seq<Record>, systemUsername: Option<string>, includeTimestamps: bool, i: nat)
    requires i < |recs|
    ensures Lines(recs, systemUsername, includeTimestamps)[i] == RenderLine(recs[i], systemUsername, includeTimestamps)
  {
    var init := recs[..|recs| - 1];
    if i < |init| {
      LinesAt(init, systemUsername, includeTimestamps, i);
      assert init[i] == recs[i];
    }
  }

  /** `get_conversation_context`: the header line, then one line per recent record, joined by
      line breaks; `None` when the buffer is empty. */
  function GetConversationContext(h: seq<Record>, systemUsername: Option<string>,
                                  maxMessages: int, includeTimestamps: bool): (ctx: Option<string>)
    ensures ctx.None? <==> h == []
  {
    if h == [] then None
    else Some(Join('\n', [Header] + Lines(RecentMessages(h, maxMessages), systemUsername, includeTimestamps)))
  }

  lemma HeaderSingleLine()
    ensures '\n' !in Header
  {
  }

  lemma {:induction false} LinesSingleLine(recs: seq<Record>, systemUsername: Option<string>, includeTimestamps: bool, i: nat)
    requires forall j :: 0 <= j < |recs| ==> '\n' !in recs[j].sender && '\n' !in recs[j].message
    requires i < |recs|
    ensures '\n' !in Lines(recs, systemUsername, includeTimestamps)[i]
  {
    LinesAt(recs, systemUsername, includeTimestamps, i);
    RenderLineSingleLine(recs[i], systemUsername, includeTimestamps);
  }

  /** For `max_messages >= 1` the context is the header and the lines of the newest
      `min(max_messages, len)` records, whatever the records contain. */
  lemma ContextIsNewestLines(h: seq<Record>, systemUsername: Option<string>, maxMessages: int, includeTimestamps: bool)
    requires h != [] && maxMessages >= 1
    ensures GetConversationContext(h, systemUsername, maxMessages, includeTimestamps)
            == Some(Join('\n', [Header] + Lines(Last(h, maxMessages), systemUsername, includeTimestamps)))
  {
  }

  /** Python's `[-0:]` is the whole list, so `max_messages == 0` lists every buffered record
      rather than none. */
  lemma ContextWithZeroListsAll(h: seq<Record>, systemUsername: Option<string>, includeTimestamps: bool)
    ensures GetConversationContext(h, systemUsername, 0, includeTimestamps)
            == GetConversationContext(h, systemUsername, |h|, includeTimestamps)
  {
  }

  /** Every part of the context is one line when the buffered sender ids and bodies are. */
  lemma ContextPartsSingleLine(recent: seq<Record>, systemUsername: Option<string>, includeTimestamps: bool)
    requires forall i :: 0 <= i < |recent| ==> '\n' !in recent[i].sender && '\n' !in recent[i].message
    ensures forall i :: 0 <= i < |recent| + 1 ==>
              '\n' !in ([Header] + Lines(recent, systemUsername, includeTimestamps))[i]
  {
    var lines := Lines(recent, systemUsername, includeTimestamps);
    var parts := [Header] + lines;
    forall i | 0 <= i < |parts|
      ensures '\n' !in parts[i]
    {
      if i == 0 {
        HeaderSingleLine();
      } else {
        assert parts[i] == lines[i - 1];
        LinesSingleLine(recent, systemUsername, includeTimestamps, i - 1);
      }
    }
  }

  /** With single-line sender ids and bodies, the context reads back as the header followed by
      exactly the newest `min(max_messages, len)` records, oldest first, each giving its role,
      its body and (when asked for) its receive minute. Evicted or older records do not appear. */
  lemma ContextListsNewest(h: seq<Record>, systemUsername: Option<string>, maxMessages: int, includeTimestamps: bool)
    requires h != [] && maxMessages >= 1
    requires forall i :: 0 <= i < |h| ==> '\n' !in h[i].sender && '\n' !in h[i].message
    ensures GetConversationContext(h, systemUsername, maxMessages, includeTimestamps).Some?
    ensures var lines := Split(GetConversationContext(h, systemUsername, maxMessages, includeTimestamps).value, '\n');
            var recent := Last(h, maxMessages);
            && |lines| == |recent| + 1
            && lines[0] == Header
            && forall i :: 0 <= i < |recent| ==>
                 ParseLine(lines[1..][i], includeTimestamps) == Some(Expected(recent[i], systemUsername, includeTimestamps))
  {
    var recent := RecentMessages(h, maxMessages);
    assert recent == Last(h, maxMessages) == h[|h| - |recent|..];
    assert forall i :: 0 <= i < |recent| ==> recent[i] == h[|h| - |recent| + i];
    var parts := [Header] + Lines(recent, systemUsername, includeTimestamps);
    ContextPartsSingleLine(recent, systemUsername, includeTimestamps);
    SplitJoin('\n', parts);
    forall i | 0 <= i < |recent|
      ensures ParseLine(parts[1..][i], includeTimestamps) == Some(Expected(recent[i], systemUsername, includeTimestamps))
    {
      LinesAt(recent, systemUsername, includeTimestamps, i);
      assert parts[1..][i] == RenderLine(recent[i], systemUsername, includeTimestamps);
      RenderLineParses(recent[i], systemUsername, includeTimestamps);
    }
  }

  /** `_build_conversation_context`: the context for the ten newest records followed by the
      reply instruction, or a fixed sentence for an empty buffer. */
  function BuildConversationContext(h: seq<Record>, systemUsername: Option<string>): (prompt: string)
    ensures prompt == NoHistory <==> h == []
  {
    match GetConversationContext(h, systemUsername, Capacity, false)
    case None => NoHistory
    case Some(ctx) => ctx + ReplyInstruction
  }

  /** Because it asks for as many records as the buffer can hold, the prompt lists every buffered record. */
  lemma BuildListsWholeBuffer(h: seq<Record>, systemUsername: Option<string>)
    requires 1 <= |h| <= Capacity
    ensures BuildConversationContext(h, systemUsername)
            == Join('\n', [Header] + Lines(h, systemUsername, false)) + ReplyInstruction
  {
    assert RecentMessages(h, Capacity) == h;
  }

  /** The line just before the reply instruction is the newest buffered record. */
  lemma BuildEndsWithNewest(h: seq<Record>, systemUsername: Option<string>)
    requires 1 <= |h| <= Capacity
    ensures var newest := "\n" + RenderLine(h[|h| - 1], systemUsername, false) + ReplyInstruction;
            var prompt := BuildConversationContext(h, systemUsername);
            |newest| <= |prompt| && prompt[|prompt| - |newest|..] == newest
  {
    var parts := [Header] + Lines(h, systemUsername, false);
    BuildListsWholeBuffer(h, systemUsername);
    JoinEndsWithLast('\n', parts, ReplyInstruction);
    LinesAt(h, systemUsername, false, |h| - 1);
    assert parts[|parts| - 1] == RenderLine(h[|h| - 1], systemUsername, false);
  }
}
