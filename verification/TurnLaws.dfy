/** Who says what in a materialised conversation, kind by kind (termin_core/compute/materialize.py). */
module TurnLaws {
  import opened Basics
  import opened Materialize
  import opened MaterializeLaws

  // ------------------------------------------------------------ attachments

  /** What one attachment of a user entry turns into. */
  function Attached(att: Attachment): seq<Block> {
    var m := Lower(att.mediaType);
    if |m| >= 6 && m[..6] == "image/" then [Image(att.source)]
    else if m == "application/pdf" then [Document(att.source)]
    else []
  }

  /** Attachments are shown one by one, in their order. */
  lemma {:induction false} AttachmentsInOrder(a: seq<Attachment>, b: seq<Attachment>)
    ensures AttachmentBlocks([]) == []
    ensures forall att :: AttachmentBlocks([att]) == Attached(att)
    ensures AttachmentBlocks(a + b) == AttachmentBlocks(a) + AttachmentBlocks(b)
    decreases |b|
  {
    forall att ensures AttachmentBlocks([att]) == Attached(att) {
      assert [att][..0] == [];
    }
    if b == [] {
      assert a + b == a;
    } else {
      var front, last := b[..|b| - 1], b[|b| - 1];
      assert (a + b)[..|a + b| - 1] == a + front;
      AttachmentsInOrder(a, front);
    }
  }

  /** Media types are compared without regard to the case of ASCII letters. */
  lemma {:induction false} LowerEachCharacter(s: string)
    ensures |Lower(s)| == |s|
    ensures forall i :: 0 <= i < |s| ==>
              Lower(s)[i] == if 'A' <= s[i] <= 'Z' then 'a' + (s[i] - 'A') else s[i]
  {
    if s != "" {
      LowerEachCharacter(s[1..]);
    }
  }

  // ------------------------------------------------------------ entries

  /** The entry has a kind and, if it is a call with an id, some result carries that id. */
  ghost predicate Shown(items: seq<Item>, k: nat)
    requires k < |items|
  {
    var e := items[k];
    && e.Entry? && e.kind != NoKind
    && (e.kind == ToolCall && e.callId != "" ==>
          exists r :: r in items && r.Entry? && r.kind == ToolResult && r.callId == e.callId)
  }

  /** The first turn of an entry, by its kind. */
  function Said(e: Item): Turn
    requires e.Entry?
  {
    match e.kind
    case ToolCall => Turn(AssistantRole, ToolUse(e.callId, e.toolName, e.args))
    case ToolResult => Turn(UserRole, ToolResultOf(e.callId, e.body, e.isError))
    case Agent => Turn(AssistantRole, Text(e.body))
    case Assistant => Turn(AssistantRole, Text(e.body))
    case SystemEvent => Turn(UserRole, Text("[" + (if e.source == "" then "system" else e.source) + "] " + e.body))
    case _ => Turn(UserRole, Text(e.body))
  }

  /** All its turns: the attachments of a user ride along. */
  function SaidWithAttachments(e: Item): seq<Turn>
    requires e.Entry?
  {
    [Said(e)] + if e.kind == Kind.User then Turns(UserRole, AttachmentBlocks(e.attachments)) else []
  }

  /** What the first `k` entries say, one after the other. */
  ghost function AllSaid(items: seq<Item>, k: nat): seq<Turn>
    requires k <= |items|
  {
    if k == 0 then []
    else AllSaid(items, k - 1) + if Shown(items, k - 1) then SaidWithAttachments(items[k - 1]) else []
  }

  lemma KeptIffShown(items: seq<Item>, k: nat)
    requires k < |items|
    ensures Keeps(items[k], Matched(items)) <==> Shown(items, k)
    ensures items[k].Entry? ==> Turns(EntryRole(items[k].kind), Blocks(items[k])) == SaidWithAttachments(items[k])
  {
  }

  lemma {:induction false} KeptSayAll(items: seq<Item>, k: nat)
    requires k <= |items|
    ensures KeptTurns(items[..k], Matched(items)) == AllSaid(items, k)
  {
    if k > 0 {
      assert items[..k][..k - 1] == items[..k - 1];
      KeptSayAll(items, k - 1);
      KeptIffShown(items, k - 1);
    }
  }

  /** The materialised messages are the one alternating list without empty messages that says what the shown entries
      say: a call is a tool use of the assistant, a result a tool result of the user, an agent's text the assistant's,
      and every other text the user's, with the source in front exactly on system events. */
  lemma MessagesByKind(items: seq<Item>, ms: seq<Message>)
    ensures ms == Messages(items, Matched(items)) <==>
              Alternates(ms) && NoneEmpty(ms) && Flatten(ms) == AllSaid(items, |items|)
  {
    MaterialisationIsTheOnlyAlternation(items, ms);
    KeptSayAll(items, |items|);
    assert items[..|items|] == items;
  }

  /** A conversation is refused exactly when a result has no id, or no call before it has its id. */
  lemma RefusedIff(items: seq<Item>)
    ensures NoOrphans(items) <==>
              forall i :: 0 <= i < |items| && items[i].Entry? && items[i].kind == ToolResult ==>
                && items[i].callId != ""
                && exists j :: 0 <= j < i && items[j].Entry? && items[j].kind == ToolCall
                               && items[j].callId == items[i].callId
  {
    forall i, j | 0 <= j < i < |items| && items[i].Entry? && items[j].Entry?
      ensures IsCall(items[j], items[i].callId) <==> items[j].kind == ToolCall && items[j].callId == items[i].callId
    {
    }
    if NoOrphans(items) {
      forall i | 0 <= i < |items| && items[i].Entry? && items[i].kind == ToolResult
        ensures items[i].callId != "" && exists j :: 0 <= j < i && items[j].Entry? && items[j].kind == ToolCall
                                                     && items[j].callId == items[i].callId
      {
        assert !Orphan(items, i);
      }
    }
  }

  // ------------------------------------------------------------ blocks

  /** Tool uses are the assistant's; tool results, images and documents the user's. */
  predicate InItsRole(t: Turn) {
    && (t.block.ToolUse? ==> t.role == AssistantRole)
    && (t.block.ToolResultOf? || t.block.Image? || t.block.Document? ==> t.role == UserRole)
  }

  lemma {:induction false} TurnsInTheirRole(items: seq<Item>, matched: set<string>)
    ensures forall t :: t in KeptTurns(items, matched) ==> InItsRole(t)
  {
    if items != [] {
      var front, last := items[..|items| - 1], items[|items| - 1];
      TurnsInTheirRole(front, matched);
      if Keeps(last, matched) {
        AttachmentBlocksExact(last.attachments);
        forall t | t in Turns(EntryRole(last.kind), Blocks(last)) ensures InItsRole(t) {
          assert t.block in Blocks(last);
        }
      }
    }
  }

  lemma {:induction false} BlockIsTurn(ms: seq<Message>, m: Message, b: Block)
    requires m in ms && b in m.content
    ensures Turn(m.role, b) in Flatten(ms)
  {
    var front, last := ms[..|ms| - 1], ms[|ms| - 1];
    if m == last {
      var i :| 0 <= i < |m.content| && m.content[i] == b;
      assert Turns(m.role, m.content)[i] == Turn(m.role, b);
    } else {
      BlockIsTurn(front, m, b);
    }
  }

  /** Every tool use stands in a message of the assistant, every tool result, image and document in one of the user. */
  lemma BlocksInTheirRole(items: seq<Item>, m: Message, b: Block)
    requires m in Messages(items, Matched(items)) && b in m.content
    ensures b.ToolUse? ==> m.role == AssistantRole
    ensures b.ToolResultOf? || b.Image? || b.Document? ==> m.role == UserRole
  {
    MessagesSayExactlyTheKept(items, Matched(items));
    TurnsInTheirRole(items, Matched(items));
    BlockIsTurn(Messages(items, Matched(items)), m, b);
    assert InItsRole(Turn(m.role, b));
  }

  /** An agent's reply to a user is a message of its own. */
  lemma ReplyIsTheAssistants(user: Item, agent: Item)
    requires user.Entry? && user.kind == Kind.User && user.attachments == []
    requires agent.Entry? && (agent.kind == Agent || agent.kind == Assistant)
    ensures Messages([user, agent], {})
            == [Message(UserRole, [Text(user.body)]), Message(AssistantRole, [Text(agent.body)])]
  {
    assert [user, agent][..1] == [user] && [user][..0] == [];
    assert Blocks(user) == [Text(user.body)] && Keeps(user, {}) && Keeps(agent, {});
    assert Messages([user], {}) == Push(Messages([], {}), UserRole, [Text(user.body)]);
  }
}
