/** Conversation entries turned into provider messages (termin_core/compute/materialize.py). */
module Materialize {
  import opened Basics

  /** `NoKind` is an entry whose kind is missing or empty. */
  datatype Kind = User | ToolResult | SystemEvent | Agent | Assistant | ToolCall | NoKind | OtherKind(name: string)

  datatype Attachment = Attachment(mediaType: string, source: string)

  /** One item of the list. An absent `tool_call_id`, `tool_name` or `source` is the empty string, absent or empty
      `tool_args` are `None`. */
  datatype Item =
    | NotAMapping
    | Entry(kind: Kind, body: string, callId: string, toolName: string, args: Option<string>, isError: bool,
            source: string, attachments: seq<Attachment>)

  datatype Block =
    | Text(text: string)
    | ToolUse(id: string, name: string, input: Option<string>)
    | ToolResultOf(useId: string, content: string, isError: bool)
    | Image(source: string)
    | Document(source: string)

  datatype Role = UserRole | AssistantRole

  datatype Message = Message(role: Role, content: seq<Block>)

  datatype Conversation = Materialized(messages: seq<Message>) | UnknownToolCall

  // ------------------------------------------------------------ one entry

  /** `entry_role` */
  function EntryRole(kind: Kind): Role {
    if kind.Agent? || kind.Assistant? || kind.ToolCall? then AssistantRole else UserRole
  }

  /** Images and PDF documents become blocks, other media types drop silently. */
  function AttachmentBlocks(atts: seq<Attachment>): seq<Block> {
    if atts == [] then []
    else
      var front, last := AttachmentBlocks(atts[..|atts| - 1]), atts[|atts| - 1];
      if StartsWith(Lower(last.mediaType), "image/") then front + [Image(last.source)]
      else if Lower(last.mediaType) == "application/pdf" then front + [Document(last.source)]
      else front
  }

  function TextOf(e: Item): string
    requires e.Entry?
  {
    if e.kind.SystemEvent? then "[" + (if e.source == "" then "system" else e.source) + "] " + e.body else e.body
  }

  function Blocks(e: Item): (bs: seq<Block>)
    requires e.Entry?
    ensures bs != []
    ensures e.kind.ToolCall? || e.kind.ToolResult? ==> |bs| == 1
  {
    if e.kind.ToolCall? then [ToolUse(e.callId, e.toolName, e.args)]
    else if e.kind.ToolResult? then [ToolResultOf(e.callId, e.body, e.isError)]
    else if e.kind.User? then [Text(TextOf(e))] + AttachmentBlocks(e.attachments)
    else [Text(TextOf(e))]
  }

  /** `build_content_blocks` */
  method BuildContentBlocks(e: Item) returns (blocks: seq<Block>)
    requires e.Entry?
    ensures blocks == Blocks(e)
  {
    if e.kind.ToolCall? {
      return [ToolUse(e.callId, e.toolName, e.args)];
    }
    if e.kind.ToolResult? {
      return [ToolResultOf(e.callId, e.body, e.isError)];
    }
    blocks := [Text(TextOf(e))];
    if e.kind.User? {
      var i := 0;
      while i < |e.attachments|
        invariant 0 <= i <= |e.attachments|
        invariant blocks == [Text(TextOf(e))] + AttachmentBlocks(e.attachments[..i])
      {
        var att := e.attachments[i];
        assert e.attachments[..i + 1][..i] == e.attachments[..i];
        if StartsWith(Lower(att.mediaType), "image/") {
          blocks := blocks + [Image(att.source)];
        } else if Lower(att.mediaType) == "application/pdf" {
          blocks := blocks + [Document(att.source)];
        }
        i := i + 1;
      }
      assert e.attachments[..i] == e.attachments;
    }
  }

  /** An image carries an image of its source, a PDF a document of it, anything else nothing. */
  predicate Carries(att: Attachment, b: Block) {
    if StartsWith(Lower(att.mediaType), "image/") then b == Image(att.source)
    else Lower(att.mediaType) == "application/pdf" && b == Document(att.source)
  }

  lemma {:induction false} AttachmentBlocksExact(atts: seq<Attachment>)
    ensures forall b :: b in AttachmentBlocks(atts) <==> exists a :: a in atts && Carries(a, b)
  {
    if atts != [] {
      var front, last := atts[..|atts| - 1], atts[|atts| - 1];
      AttachmentBlocksExact(front);
      assert forall b :: b in AttachmentBlocks(atts) <==> b in AttachmentBlocks(front) || Carries(last, b);
      assert forall a :: a in atts <==> a in front || a == last;
    }
  }

  // ------------------------------------------------------------ tool linkage

  predicate IsCall(e: Item, id: string) {
    e.Entry? && e.kind.ToolCall? && e.callId == id
  }

  predicate IsResult(e: Item, id: string) {
    e.Entry? && e.kind.ToolResult? && e.callId == id
  }

  /** The ids some tool_result refers to. */
  function Matched(items: seq<Item>): set<string> {
    set e | e in items && e.Entry? && e.kind.ToolResult? && e.callId != "" :: e.callId
  }

  /** The tool_result at `i` has an empty id, or no strictly earlier tool_call has its id. */
  ghost predicate Orphan(items: seq<Item>, i: int) {
    && 0 <= i < |items| && items[i].Entry? && items[i].kind.ToolResult?
    && (items[i].callId == "" || forall j :: 0 <= j < i ==> !IsCall(items[j], items[i].callId))
  }

  /** An entry with a kind is kept, unless it is a tool_call nobody answers. */
  predicate Keeps(e: Item, matched: set<string>) {
    e.Entry? && !e.kind.NoKind? && (e.kind.ToolCall? && e.callId != "" ==> e.callId in matched)
  }

  /** The blocks of the kept entries, in order. */
  function KeptBlocks(items: seq<Item>, matched: set<string>): seq<Block> {
    if items == [] then []
    else
      var front, last := KeptBlocks(items[..|items| - 1], matched), items[|items| - 1];
      if Keeps(last, matched) then front + Blocks(last) else front
  }

  // ------------------------------------------------------------ merging

  /** One more turn: extend the last message of the same role, or start a new one. */
  function Push(ms: seq<Message>, role: Role, blocks: seq<Block>): seq<Message> {
    if ms != [] && ms[|ms| - 1].role == role then
      ms[..|ms| - 1] + [Message(role, ms[|ms| - 1].content + blocks)]
    else ms + [Message(role, blocks)]
  }

  function Messages(items: seq<Item>, matched: set<string>): seq<Message> {
    if items == [] then []
    else
      var front, last := Messages(items[..|items| - 1], matched), items[|items| - 1];
      if Keeps(last, matched) then Push(front, EntryRole(last.kind), Blocks(last)) else front
  }

  /** `materialize_to_anthropic`: two passes. */
  method MaterializeToAnthropic(items: seq<Item>) returns (r: Conversation)
    ensures r.UnknownToolCall? <==> exists i :: Orphan(items, i)
    ensures r.Materialized? ==> r.messages == Messages(items, Matched(items))
  {
    if items == [] {
      return Materialized([]);
    }
    var matched := FirstPass(items);
    var seen: set<string> := {};
    var messages: seq<Message> := [];
    var i := 0;
    while i < |items|
      invariant 0 <= i <= |items|
      invariant forall id :: id in seen <==> id in matched && exists j :: 0 <= j < i && IsCall(items[j], id)
      invariant forall k :: 0 <= k < i ==> !Orphan(items, k)
      invariant messages == Messages(items[..i], matched)
    {
      var e := items[i];
      assert items[..i + 1][..i] == items[..i];
      if e.Entry? && !e.kind.NoKind? {
        if e.kind.ToolCall? {
          if e.callId != "" && e.callId !in matched {
            i := i + 1;
            continue;
          }
          if e.callId != "" {
            assert IsCall(items[i], e.callId);
            seen := seen + {e.callId};
          }
        } else if e.kind.ToolResult? {
          assert e.callId != "" ==> e.callId in matched;
          if e.callId == "" || e.callId !in seen {
            assert Orphan(items, i);
            return UnknownToolCall;
          }
        }
        var role := EntryRole(e.kind);
        var blocks := BuildContentBlocks(e);
        if messages != [] && messages[|messages| - 1].role == role {
          messages := messages[..|messages| - 1] + [Message(role, messages[|messages| - 1].content + blocks)];
        } else {
          messages := messages + [Message(role, blocks)];
        }
      }
      i := i + 1;
    }
    assert items[..i] == items;
    return Materialized(messages);
  }

  /** The ids that have a tool_result. */
  method FirstPass(items: seq<Item>) returns (matched: set<string>)
    ensures matched == Matched(items)
  {
    matched := {};
    var i := 0;
    while i < |items|
      invariant 0 <= i <= |items|
      invariant matched == Matched(items[..i])
    {
      var e := items[i];
      assert items[..i + 1] == items[..i] + [e];
      if e.Entry? && e.kind.ToolResult? && e.callId != "" {
        matched := matched + {e.callId};
      }
      i := i + 1;
    }
    assert items[..i] == items;
  }
}

/** What the materialised conversation promises. */
module MaterializeLaws {
  import opened Basics
  import opened Materialize

  // ------------------------------------------------------------ shape: alternation, nothing lost, nothing added

  ghost predicate Alternates(ms: seq<Message>) {
    forall i :: 0 < i < |ms| ==> ms[i - 1].role != ms[i].role
  }

  ghost predicate NoneEmpty(ms: seq<Message>) {
    forall i :: 0 <= i < |ms| ==> ms[i].content != []
  }

  datatype Turn = Turn(role: Role, block: Block)

  function Turns(role: Role, blocks: seq<Block>): (ts: seq<Turn>)
    ensures |ts| == |blocks| && forall i :: 0 <= i < |ts| ==> ts[i] == Turn(role, blocks[i])
  {
    seq(|blocks|, i requires 0 <= i < |blocks| => Turn(role, blocks[i]))
  }

  /** A message list read block by block, each block with the role of its message. */
  function Flatten(ms: seq<Message>): seq<Turn> {
    if ms == [] then []
    else Flatten(ms[..|ms| - 1]) + Turns(ms[|ms| - 1].role, ms[|ms| - 1].content)
  }

  /** What should be said: the blocks of the kept entries, each in the role of its entry. */
  function KeptTurns(items: seq<Item>, matched: set<string>): seq<Turn> {
    if items == [] then []
    else
      var front, last := KeptTurns(items[..|items| - 1], matched), items[|items| - 1];
      if Keeps(last, matched) then front + Turns(EntryRole(last.kind), Blocks(last)) else front
  }

  lemma PushKeepsShape(ms: seq<Message>, role: Role, blocks: seq<Block>)
    requires Alternates(ms) && NoneEmpty(ms) && blocks != []
    ensures Alternates(Push(ms, role, blocks)) && NoneEmpty(Push(ms, role, blocks))
    ensures Flatten(Push(ms, role, blocks)) == Flatten(ms) + Turns(role, blocks)
  {
    var r := Push(ms, role, blocks);
    if ms != [] && ms[|ms| - 1].role == role {
      assert r[..|r| - 1] == ms[..|ms| - 1];
      assert Turns(role, ms[|ms| - 1].content + blocks) == Turns(role, ms[|ms| - 1].content) + Turns(role, blocks);
    } else {
      assert r[..|r| - 1] == ms;
    }
  }

  /** The messages alternate, none is empty, and together they say exactly the kept entries in order. */
  lemma {:induction false} MessagesSayExactlyTheKept(items: seq<Item>, matched: set<string>)
    ensures var ms := Messages(items, matched);
            Alternates(ms) && NoneEmpty(ms) && Flatten(ms) == KeptTurns(items, matched)
  {
    if items != [] {
      var front, last := items[..|items| - 1], items[|items| - 1];
      MessagesSayExactlyTheKept(front, matched);
      if Keeps(last, matched) {
        PushKeepsShape(Messages(front, matched), EntryRole(last.kind), Blocks(last));
      }
    }
  }

  /** Only one message list has that shape: the merge leaves no choice. */
  lemma {:induction false} ShapeIsUnique(ms: seq<Message>, ns: seq<Message>)
    requires Alternates(ms) && NoneEmpty(ms) && Alternates(ns) && NoneEmpty(ns) && Flatten(ms) == Flatten(ns)
    ensures ms == ns
    decreases |ms|
  {
    if ms == [] || ns == [] {
      FlattenNonEmpty(ms);
      FlattenNonEmpty(ns);
    } else {
      LastTurnDiffers(ms);
      LastTurnDiffers(ns);
      var m, n := ms[|ms| - 1], ns[|ns| - 1];
      SameLastRun(Flatten(ms), Flatten(ms[..|ms| - 1]), m.role, m.content,
                  Flatten(ns[..|ns| - 1]), n.role, n.content);
      ShapeIsUnique(ms[..|ms| - 1], ns[..|ns| - 1]);
      assert ms == ms[..|ms| - 1] + [m] && ns == ns[..|ns| - 1] + [n];
    }
  }

  lemma SameLastRun(all: seq<Turn>, f: seq<Turn>, r: Role, bs: seq<Block>, g: seq<Turn>, q: Role, cs: seq<Block>)
    requires all == f + Turns(r, bs) == g + Turns(q, cs) && bs != [] && cs != []
    requires f != [] ==> all[|f| - 1].role != r
    requires g != [] ==> all[|g| - 1].role != q
    requires forall i :: |f| <= i < |all| ==> all[i].role == r
    requires forall i :: |g| <= i < |all| ==> all[i].role == q
    ensures f == g && r == q && bs == cs
  {
    assert all[|all| - 1].role == r == q;
    assert |f| == |g|;
    assert f == all[..|f|] == g;
    assert Turns(r, bs) == all[|f|..] == Turns(q, cs);
    forall i | 0 <= i < |bs| ensures bs[i] == cs[i] {
      assert Turns(r, bs)[i] == Turns(q, cs)[i];
    }
  }

  lemma FlattenNonEmpty(ms: seq<Message>)
    requires NoneEmpty(ms)
    ensures Flatten(ms) == [] <==> ms == []
  {
  }

  /** The last message is the longest run of turns in its role. */
  lemma LastTurnDiffers(ms: seq<Message>)
    requires Alternates(ms) && NoneEmpty(ms) && ms != []
    ensures var f, all, role := Flatten(ms[..|ms| - 1]), Flatten(ms), ms[|ms| - 1].role;
            && |f| < |all|
            && (f != [] ==> all[|f| - 1].role != role)
            && forall i :: |f| <= i < |all| ==> all[i].role == role
  {
    var front := ms[..|ms| - 1];
    var f := Flatten(front);
    assert f != [] ==> Flatten(ms)[|f| - 1] == f[|f| - 1];
    if front != [] {
      assert front[|front| - 1] == ms[|ms| - 2];
    }
  }

  /** The direct specification: `ms` is the result exactly when it alternates, has no empty message, and says
      the kept entries. */
  lemma MaterialisationIsTheOnlyAlternation(items: seq<Item>, ms: seq<Message>)
    ensures ms == Messages(items, Matched(items)) <==>
            Alternates(ms) && NoneEmpty(ms) && Flatten(ms) == KeptTurns(items, Matched(items))
  {
    MessagesSayExactlyTheKept(items, Matched(items));
    if Alternates(ms) && NoneEmpty(ms) && Flatten(ms) == KeptTurns(items, Matched(items)) {
      ShapeIsUnique(ms, Messages(items, Matched(items)));
    }
  }

  // ------------------------------------------------------------ tool calls and their results

  ghost predicate NoOrphans(items: seq<Item>) {
    forall i :: 0 <= i < |items| ==> !Orphan(items, i)
  }

  /** Every tool_use is followed by a tool_result of the same id. */
  ghost predicate EveryUseAnswered(bs: seq<Block>) {
    forall i :: 0 <= i < |bs| && bs[i].ToolUse? ==>
      exists j :: i < j < |bs| && bs[j].ToolResultOf? && bs[j].useId == bs[i].id
  }

  /** Every tool_result is preceded by a tool_use of the same id. */
  ghost predicate EveryResultAsked(bs: seq<Block>) {
    forall j :: 0 <= j < |bs| && bs[j].ToolResultOf? ==>
      exists i :: 0 <= i < j && bs[i].ToolUse? && bs[i].id == bs[j].useId
  }

  /** Where the blocks of entry `k` start. */
  function Start(items: seq<Item>, matched: set<string>, k: nat): nat
    requires k <= |items|
  {
    |KeptBlocks(items[..k], matched)|
  }

  lemma {:induction false} EntryAt(items: seq<Item>, matched: set<string>, k: nat)
    requires k < |items|
    ensures var bs, at := KeptBlocks(items, matched), Start(items, matched, k);
            && (Keeps(items[k], matched) ==>
                  && Start(items, matched, k + 1) == at + |Blocks(items[k])| <= |bs|
                  && bs[at..Start(items, matched, k + 1)] == Blocks(items[k]))
            && (!Keeps(items[k], matched) ==> Start(items, matched, k + 1) == at)
    decreases |items|
  {
    assert items[..k + 1][..k] == items[..k];
    var front := items[..|items| - 1];
    if k == |items| - 1 {
      assert items[..k + 1] == items;
    } else {
      EntryAt(front, matched, k);
      assert front[..k] == items[..k] && front[..k + 1] == items[..k + 1];
    }
  }

  lemma {:induction false} StartsGrow(items: seq<Item>, matched: set<string>, j: nat, k: nat)
    requires j <= k <= |items|
    ensures Start(items, matched, j) <= Start(items, matched, k)
    decreases k - j
  {
    if j < k {
      EntryAt(items, matched, j);
      StartsGrow(items, matched, j + 1, k);
    }
  }

  /** Every tool block comes from one kept tool entry, at that entry's start. */
  lemma {:induction false} BlockAt(items: seq<Item>, matched: set<string>, b: nat) returns (k: nat)
    requires b < |KeptBlocks(items, matched)|
    ensures k < |items| && Keeps(items[k], matched)
    ensures Start(items, matched, k) <= b < Start(items, matched, k + 1)
    ensures var block := KeptBlocks(items, matched)[b];
            && (block.ToolUse? ==> IsCall(items[k], block.id) && Start(items, matched, k) == b)
            && (block.ToolResultOf? ==> IsResult(items[k], block.useId) && Start(items, matched, k) == b)
    decreases |items|
  {
    var front, last := items[..|items| - 1], items[|items| - 1];
    assert items[..|items| - 1 + 1] == items;
    if b < |KeptBlocks(front, matched)| {
      k := BlockAt(front, matched, b);
      assert front[..k] == items[..k] && front[..k + 1] == items[..k + 1];
    } else {
      k := |items| - 1;
      AttachmentBlocksExact(last.attachments);
      assert KeptBlocks(items, matched)[b] in Blocks(last);
    }
  }

  lemma ToolEntryAt(items: seq<Item>, matched: set<string>, k: nat)
    requires k < |items| && Keeps(items[k], matched) && (items[k].kind.ToolCall? || items[k].kind.ToolResult?)
    ensures var at := Start(items, matched, k);
            && at < |KeptBlocks(items, matched)|
            && KeptBlocks(items, matched)[at] == Blocks(items[k])[0]
            && forall l :: k < l <= |items| ==> at < Start(items, matched, l)
  {
    EntryAt(items, matched, k);
    var at := Start(items, matched, k);
    assert KeptBlocks(items, matched)[at] == KeptBlocks(items, matched)[at..at + 1][0];
    forall l | k < l <= |items| ensures at < Start(items, matched, l) {
      StartsGrow(items, matched, k + 1, l);
    }
  }

  /** On success every tool_result is preceded by its tool_use, whatever the ids. */
  lemma EveryResultIsAsked(items: seq<Item>)
    requires NoOrphans(items)
    ensures EveryResultAsked(KeptBlocks(items, Matched(items)))
  {
    var matched := Matched(items);
    var bs := KeptBlocks(items, matched);
    forall b | 0 <= b < |bs| && bs[b].ToolResultOf?
      ensures exists a :: 0 <= a < b && bs[a].ToolUse? && bs[a].id == bs[b].useId
    {
      var k := BlockAt(items, matched, b);
      assert !Orphan(items, k);
      var j :| 0 <= j < k && IsCall(items[j], items[k].callId);
      assert items[k] in items;
      ToolEntryAt(items, matched, j);
      var a := Start(items, matched, j);
      assert bs[a] == Blocks(items[j])[0];
    }
  }

  /** Calls carry an id, and no call comes after the last result that uses its id. */
  ghost predicate CallsAnswerable(items: seq<Item>) {
    forall k :: 0 <= k < |items| && items[k].Entry? && items[k].kind.ToolCall? ==>
      && items[k].callId != ""
      && (items[k].callId in Matched(items) ==> AnsweredAfter(items, k))
  }

  ghost predicate AnsweredAfter(items: seq<Item>, k: int)
    requires 0 <= k < |items| && items[k].Entry?
  {
    exists l :: k < l < |items| && IsResult(items[l], items[k].callId)
  }

  /** On success every tool_use is answered exactly when the calls are answerable. */
  lemma EveryUseIsAnsweredIff(items: seq<Item>)
    requires NoOrphans(items)
    ensures EveryUseAnswered(KeptBlocks(items, Matched(items))) <==> CallsAnswerable(items)
  {
    var matched := Matched(items);
    var bs := KeptBlocks(items, matched);
    if CallsAnswerable(items) {
      forall a | 0 <= a < |bs| && bs[a].ToolUse?
        ensures exists b :: a < b < |bs| && bs[b].ToolResultOf? && bs[b].useId == bs[a].id
      {
        var k := BlockAt(items, matched, a);
        assert AnsweredAfter(items, k);
        var l :| k < l < |items| && IsResult(items[l], items[k].callId);
        ToolEntryAt(items, matched, k);
        ToolEntryAt(items, matched, l);
        var b := Start(items, matched, l);
        assert bs[b] == Blocks(items[l])[0];
      }
    }
    if EveryUseAnswered(bs) {
      forall k | 0 <= k < |items| && items[k].Entry? && items[k].kind.ToolCall?
        ensures items[k].callId != "" && (items[k].callId in matched ==> AnsweredAfter(items, k))
      {
        if Keeps(items[k], matched) {
          ToolEntryAt(items, matched, k);
          var a := Start(items, matched, k);
          assert bs[a].ToolUse?;
          var b :| a < b < |bs| && bs[b].ToolResultOf? && bs[b].useId == bs[a].id;
          var l := BlockAt(items, matched, b);
          if l < k { StartsGrow(items, matched, l + 1, k); }
          assert !Orphan(items, l);
          assert IsResult(items[l], items[k].callId);
        }
      }
    }
  }

  /** Non-empty, pairwise distinct call ids are enough. */
  lemma DistinctIdsAreAnswerable(items: seq<Item>)
    requires NoOrphans(items)
    requires forall k :: 0 <= k < |items| && items[k].Entry? && items[k].kind.ToolCall? ==> items[k].callId != ""
    requires forall j, k ::
               && 0 <= j < k < |items| && items[j].Entry? && items[j].kind.ToolCall?
               && items[k].Entry? && items[k].kind.ToolCall?
               ==> items[j].callId != items[k].callId
    ensures CallsAnswerable(items)
  {
    forall k | 0 <= k < |items| && items[k].Entry? && items[k].kind.ToolCall? && items[k].callId in Matched(items)
      ensures AnsweredAfter(items, k)
    {
      var e :| e in items && e.Entry? && e.kind.ToolResult? && e.callId != "" && e.callId == items[k].callId;
      var l :| 0 <= l < |items| && items[l] == e;
      assert !Orphan(items, l);
      var j :| 0 <= j < l && IsCall(items[j], e.callId);
      assert j == k;
      assert IsResult(items[l], items[k].callId);
    }
  }

  /** A repeated id: the second call goes out with no result behind it. */
  lemma RepeatedIdGoesUnanswered(call: Item, result: Item)
    requires IsCall(call, "a") && IsResult(result, "a")
    ensures NoOrphans([call, result, call]) && !EveryUseAnswered(KeptBlocks([call, result, call], {"a"}))
    ensures Matched([call, result, call]) == {"a"}
  {
    var items := [call, result, call];
    assert result in items;
    assert Matched(items) == {"a"};
    assert IsCall(items[0], "a");
    assert !AnsweredAfter(items, 2);
    assert items[2].callId in Matched(items);
    EveryUseIsAnsweredIff(items);
  }

  // ------------------------------------------------------------ appending

  lemma {:induction false} MatchedOnlyMatters(items: seq<Item>, m: set<string>, n: set<string>)
    requires m <= n
    ensures |KeptBlocks(items, m)| <= |KeptBlocks(items, n)|
    ensures forall k :: 0 <= k < |items| && Keeps(items[k], n) && !Keeps(items[k], m) ==>
              |KeptBlocks(items, m)| < |KeptBlocks(items, n)|
  {
    if items != [] {
      MatchedOnlyMatters(items[..|items| - 1], m, n);
    }
  }

  /** Appending anything but a tool_result leaves the outcome and all earlier messages alone: one merge, one new
      message, or nothing. */
  lemma AppendIsOnePush(items: seq<Item>, e: Item)
    requires !(e.Entry? && e.kind.ToolResult?)
    ensures NoOrphans(items + [e]) <==> NoOrphans(items)
    ensures var before, after := Messages(items, Matched(items)), Messages(items + [e], Matched(items + [e]));
            after == if Keeps(e, Matched(items)) then Push(before, EntryRole(e.kind), Blocks(e)) else before
  {
    var longer := items + [e];
    assert Matched(longer) == Matched(items) by {
      assert forall x :: x in longer <==> x in items || x == e;
    }
    assert longer[..|longer| - 1] == items;
    OrphansOfPrefix(items, e);
  }

  lemma OrphansOfPrefix(items: seq<Item>, e: Item)
    ensures NoOrphans(items + [e]) <==> NoOrphans(items) && !Orphan(items + [e], |items|)
  {
    var longer := items + [e];
    forall i | 0 <= i < |items| ensures Orphan(longer, i) <==> Orphan(items, i) {
      assert forall j :: 0 <= j <= i ==> longer[j] == items[j];
    }
  }

  /** Appending a tool_result is one push exactly when its id was answered before; otherwise it brings calls back
      that were dropped until then. */
  lemma ResultIsOnePushIff(items: seq<Item>, e: Item)
    requires e.Entry? && e.kind.ToolResult? && NoOrphans(items + [e])
    ensures var before, after := Messages(items, Matched(items)), Messages(items + [e], Matched(items + [e]));
            after == Push(before, UserRole, Blocks(e)) <==> e.callId in Matched(items)
  {
    var longer := items + [e];
    var m, n := Matched(items), Matched(longer);
    assert longer[..|items|] == items && longer[|items|] == e;
    assert !Orphan(longer, |items|);
    assert n == m + {e.callId} by { assert forall x :: x in longer <==> x in items || x == e; }
    var before, after := Messages(items, m), Messages(longer, n);
    assert after == Push(Messages(items, n), UserRole, Blocks(e));
    if e.callId in m {
      assert n == m;
    } else {
      var j :| 0 <= j < |items| && IsCall(longer[j], e.callId);
      assert Keeps(items[j], n) && !Keeps(items[j], m);
      MatchedOnlyMatters(items, m, n);
      MessagesSayExactlyTheKept(items, m);
      MessagesSayExactlyTheKept(items, n);
      PushKeepsShape(before, UserRole, Blocks(e));
      PushKeepsShape(Messages(items, n), UserRole, Blocks(e));
      TurnsAreBlocks(items, m);
      TurnsAreBlocks(items, n);
    }
  }

  lemma {:induction false} TurnsAreBlocks(items: seq<Item>, matched: set<string>)
    ensures |KeptTurns(items, matched)| == |KeptBlocks(items, matched)|
    ensures forall i :: 0 <= i < |KeptTurns(items, matched)| ==>
              KeptTurns(items, matched)[i].block == KeptBlocks(items, matched)[i]
  {
    if items != [] {
      TurnsAreBlocks(items[..|items| - 1], matched);
    }
  }
}
