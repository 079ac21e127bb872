/** The per-session conversation store (`st.session_state.messages`) and the two flows that
    append to it: a typed chat question (`main`) and a selected hazard (`handle_file_upload`). */
module Session {
  import opened Wrappers
  import opened Hazards
  import opened Polling

  const OshaLabel: string := "OSHA Hazard Violation"
  const RiskRadarLabel: string := "RiskRadar: Job Safety Assessment App"

  const OshaAssistant: string := "asst_VtTVcysjzIGyZpshBCQW5AfU"
  const RiskRadarAssistant: string := "asst_Kr7ozxBcZXSYY1v1oLhqoq3G"

  /** One entry of a conversation's history. */
  datatype ChatTurn = ChatTurn(role: Role, content: string)

  type History = map<string, seq<ChatTurn>>

  /** The assistant a chat question on a tab is sent to: the OSHA assistant for the OSHA
      tab and the RiskRadar assistant for every other tab. */
  function AssistantIdFor(tab: string): (id: string)
    ensures id == OshaAssistant || id == RiskRadarAssistant
    ensures id == OshaAssistant <==> tab == OshaLabel
  {
    assert OshaAssistant[5] != RiskRadarAssistant[5];
    if tab == OshaLabel then OshaAssistant else RiskRadarAssistant
  }

  /** The turns that the assistant-role messages of a listing become, in listed order; messages
      of any other role are skipped. */
  function AssistantTurns(msgs: seq<Message>): (turns: seq<ChatTurn>)
    ensures |turns| <= |msgs|
    ensures forall k :: 0 <= k < |turns| ==> turns[k].role == Assistant
    ensures forall k :: 0 <= k < |turns| ==> Message(Assistant, turns[k].content) in msgs
    ensures forall k :: 0 <= k < |msgs| && msgs[k].role == Assistant ==>
              ChatTurn(Assistant, msgs[k].text) in turns
  {
    if |msgs| == 0 then []
    else
      var last := msgs[|msgs| - 1];
      AssistantTurns(msgs[..|msgs| - 1])
      + (if last.role == Assistant then [ChatTurn(Assistant, last.text)] else [])
  }

  /** Filtering a listing piece by piece gives the pieces' turns one after the other: the turns
      keep the order of the listing. */
  lemma {:induction false} AssistantTurnsAppend(a: seq<Message>, b: seq<Message>)
    ensures AssistantTurns(a + b) == AssistantTurns(a) + AssistantTurns(b)
  {
    if |b| == 0 {
      assert a + b == a;
    } else {
      var b' := b[..|b| - 1];
      assert (a + b)[..|a + b| - 1] == a + b';
      assert (a + b)[|a + b| - 1] == b[|b| - 1];
      AssistantTurnsAppend(a, b');
    }
  }

  /** The turns a response adds after the user's turn: one per assistant message when messages
      were listed, none when the call failed or has not returned. */
  function ResponseTurns(r: Response): seq<ChatTurn> {
    match r
    case Returned(Some(msgs)) => AssistantTurns(msgs)
    case _ => []
  }

  /** The history a session starts with: both labels, each with no turns. */
  function InitialHistory(): (h: History)
    ensures h.Keys == {OshaLabel, RiskRadarLabel}
    ensures forall l :: l in h ==> h[l] == []
  {
    map[OshaLabel := [], RiskRadarLabel := []]
  }

  /** The history only grows: the same labels, and every list extends the one before. */
  predicate Grows(before: History, after: History) {
    && before.Keys == after.Keys
    && forall l :: l in before ==> before[l] <= after[l]
  }

  /** The state of one browser session. */
  class SessionState {
    /** Whether `messages` is in the session state yet. */
    var hasMessages: bool
    var messages: History

    ghost predicate Valid()
      reads this
    {
      if hasMessages then messages.Keys == {OshaLabel, RiskRadarLabel} else messages == map[]
    }

    /** A fresh session, before the script's first run. */
    constructor ()
      ensures Valid() && !hasMessages
    {
      hasMessages := false;
      messages := map[];
    }

    /** The script's first lines, run on every rerun: the history is created only when absent,
        and a history that exists is left as it is. */
    method InitHistory()
      requires Valid()
      modifies this
      ensures Valid() && hasMessages
      ensures old(hasMessages) ==> messages == old(messages)
      ensures !old(hasMessages) ==> messages == InitialHistory()
    {
      if !hasMessages {
        messages := InitialHistory();
        hasMessages := true;
      }
    }

    /** `st.session_state.messages[tab].append(turn)`. */
    method Append(tab: string, turn: ChatTurn)
      requires Valid() && hasMessages && tab in messages
      modifies this
      ensures Valid() && hasMessages
      ensures messages == old(messages)[tab := old(messages)[tab] + [turn]]
    {
      messages := messages[tab := messages[tab] + [turn]];
    }

    /** The loop after a remote call: when it returned messages, append one assistant turn per
        assistant-role message in listed order. */
    method AppendResponse(tab: string, response: Response)
      requires Valid() && hasMessages && tab in messages
      modifies this
      ensures Valid() && hasMessages
      ensures messages == old(messages)[tab := old(messages)[tab] + ResponseTurns(response)]
    {
      if response.Returned? && response.messages.Some? {
        var data := response.messages.value;
        ghost var before := messages[tab];
        assert data[..0] == [];
        assert before + AssistantTurns(data[..0]) == before;
        for i := 0 to |data|
          invariant Valid() && hasMessages
          invariant messages == old(messages)[tab := before + AssistantTurns(data[..i])]
        {
          assert data[..i + 1][..i] == data[..i];
          ghost var done := AssistantTurns(data[..i]);
          if data[i].role == Assistant {
            var turn := ChatTurn(Assistant, data[i].text);
            Append(tab, turn);
            assert AssistantTurns(data[..i + 1]) == done + [turn];
            assert before + done + [turn] == before + (done + [turn]);
          } else {
            assert AssistantTurns(data[..i + 1]) == done;
          }
        }
        assert data[..|data|] == data;
      } else {
        assert messages[tab] + ResponseTurns(response) == messages[tab];
        assert messages[tab := messages[tab]] == messages;
      }
    }

    /** A question typed on the tab `tab`: the user turn is appended first, the question goes to
        that tab's assistant, and the assistant turns of the response follow. Nothing else in
        the history changes. Returns the request that was sent. */
    method SubmitChat(tab: string, userInput: string, service: Request -> Remote) returns (sent: Request)
      requires Valid() && hasMessages && tab in messages
      modifies this
      ensures Valid() && hasMessages
      ensures sent == Request(userInput, AssistantIdFor(tab))
      ensures messages == old(messages)[tab := old(messages)[tab]
                + [ChatTurn(User, userInput)] + ResponseTurns(AssistantResponse(service(sent)))]
      ensures Grows(old(messages), messages)
    {
      Append(tab, ChatTurn(User, userInput));
      sent := Request(userInput, AssistantIdFor(tab));
      var response := GetAssistantResponse(sent, service);
      AppendResponse(tab, response);
    }

    /** A hazard chosen from an uploaded sheet (None: the sheet could not be read) at position
        `pick` of the de-duplicated rows, confirmed or not. When it renders and is confirmed, its
        text is appended as a user turn to the OSHA history (the upload control is shown on the
        OSHA tab only, and its handler is given that tab's label), sent to the OSHA assistant,
        and the assistant turns follow. Otherwise nothing changes. */
    method SubmitHazard<V(==)>(parsed: Option<Table<V>>, pick: int, confirmed: bool,
                               display: V -> string, service: Request -> Remote)
      returns (sent: Option<Request>)
      requires Valid() && hasMessages
      requires parsed.Some? ==> parsed.value.Rectangular()
      modifies this
      ensures Valid() && hasMessages
      ensures var text := if parsed.Some? then HazardTextAt(DropDuplicates(parsed.value), pick, display) else None;
        if text.Some? && confirmed then
          && sent == Some(Request(text.value, OshaAssistant))
          && messages == old(messages)[OshaLabel := old(messages)[OshaLabel]
               + [ChatTurn(User, text.value)] + ResponseTurns(AssistantResponse(service(sent.value)))]
        else
          sent == None && messages == old(messages)
      ensures Grows(old(messages), messages)
    {
      sent := None;
      if parsed.None? {
        return;
      }
      var uniqueHazards := DropDuplicates(parsed.value);
      var hazardText := ConvertHazardToText(uniqueHazards, pick, display);
      if hazardText.None? || !confirmed {
        return;
      }
      Append(OshaLabel, ChatTurn(User, hazardText.value));
      sent := Some(Request(hazardText.value, OshaAssistant));
      var response := GetAssistantResponse(sent.value, service);
      AppendResponse(OshaLabel, response);
    }
  }

  /** A question "ping" on the OSHA tab that the OSHA assistant answers with "OK" ends the OSHA
      history with the two turns and leaves the RiskRadar history as it was. */
  method PingOnOshaTab(session: SessionState)
    requires session.Valid() && session.hasMessages
    modifies session
    ensures session.Valid() && session.hasMessages
    ensures session.messages[OshaLabel]
              == old(session.messages[OshaLabel]) + [ChatTurn(User, "ping"), ChatTurn(Assistant, "OK")]
    ensures session.messages[RiskRadarLabel] == old(session.messages[RiskRadarLabel])
  {
    var riskRadarBefore := session.messages[RiskRadarLabel];
    var oshaBefore := session.messages[OshaLabel];
    var service := (req: Request) =>
      if req.assistantId == OshaAssistant
      then Remote(Some(RunHandle("thread", "run")), [Some(InProgress), Some(Completed)],
                  Some([Message(Assistant, "OK"), Message(User, req.content)]))
      else Remote(None, [], None);
    var sent := session.SubmitChat(OshaLabel, "ping", service);
    assert sent.assistantId == OshaAssistant;
    var remote := service(sent);
    assert Polled("run", "thread", remote.replies, 1) == Settled(Run("run", "thread", Completed), 2);
    assert AssistantResponse(remote) == Returned(Some([Message(Assistant, "OK"), Message(User, "ping")]));
    assert AssistantTurns([Message(Assistant, "OK"), Message(User, "ping")]) == [ChatTurn(Assistant, "OK")] by {
      assert [Message(Assistant, "OK"), Message(User, "ping")][..1] == [Message(Assistant, "OK")];
    }
    assert session.messages[OshaLabel] == oshaBefore + [ChatTurn(User, "ping"), ChatTurn(Assistant, "OK")];
    assert session.messages[RiskRadarLabel] == riskRadarBefore;
  }
}
