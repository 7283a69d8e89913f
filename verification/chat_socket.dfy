/**
 * The `useChatWebSocket` hook: opening a connection per session id, turning
 * inbound frames into messages for the log, gating outbound sends, and
 * closing. Every socket the hook has created is kept, numbered in creation
 * order and reduced to its `readyState`: a socket the hook has replaced is
 * still alive in the browser and its handlers still fire. A frame arrives
 * already decoded into the shape of its `message` field.
 */
module ChatSocket {
  import opened Common
  import opened ChatMessages

  datatype ReadyState = Connecting | Open | Closing | Closed

  /**
   * The hook's state: the `readyState` of every socket created so far, the
   * hook's `socket` state (the latest socket set), the socket whose cleanup
   * the effect has registered, and the `isConnected` flag.
   */
  datatype Conn = Conn(sockets: seq<ReadyState>, socket: Option<nat>, pending: Option<nat>, isConnected: bool)

  /** One entry of a history frame as the server sends it. */
  datatype RemoteEntry = RemoteEntry(role: string, content: string)

  /**
   * The `message` field of a frame: absent or another falsy value (`null`,
   * `false`, `0`), a string, an array of history entries, or another truthy
   * value (a number, `true`, an object), carried as its JSON text. A frame
   * that is not JSON makes `JSON.parse` throw.
   */
  datatype MessageField = NoField | Text(text: string) | Entries(entries: seq<RemoteEntry>) | Scalar(json: string) | Unparsable

  /** The single frame the client ever sends: `{"message": text}`. */
  datatype Outbound = Outbound(message: string)

  const InitialConn: Conn := Conn([], None, None, false)

  /** The id of the greeting delivered on open. */
  const GreetingId: string := "1"

  const GreetingContent: string :=
    "**Hello!** I'm your *KitchenIntel AI* assistant. How can I help you today?\n\n```\nThis is a code block for testing markdown\n```\n\n- List item 1\n- List item 2"

  // ---------------------------------------------------------------------------
  // Sockets
  // ---------------------------------------------------------------------------

  /** The `readyState` of socket `k`, if the hook ever created it. */
  function StateOf(c: Conn, k: nat): Option<ReadyState> {
    if k < |c.sockets| then Some(c.sockets[k]) else None
  }

  /** The `readyState` of the hook's `socket`, if it holds one. */
  function Current(c: Conn): Option<ReadyState> {
    if c.socket.Some? then StateOf(c, c.socket.value) else None
  }

  /** `r` is `c` with socket `k` (when it exists) in state `st`, and every other socket and reference unchanged. */
  predicate Moved(c: Conn, r: Conn, k: nat, st: ReadyState) {
    && |r.sockets| == |c.sockets| && r.socket == c.socket && r.pending == c.pending
    && (k < |c.sockets| ==> r.sockets[k] == st)
    && forall j :: 0 <= j < |c.sockets| && j != k ==> r.sockets[j] == c.sockets[j]
  }

  /** Socket `k` moves to `st`; an unknown `k` changes nothing. */
  function SetState(c: Conn, k: nat, st: ReadyState): (r: Conn)
    ensures Moved(c, r, k, st) && r.isConnected == c.isConnected
  {
    if k < |c.sockets| then c.(sockets := c.sockets[k := st]) else c
  }

  // ---------------------------------------------------------------------------
  // Connection lifecycle
  // ---------------------------------------------------------------------------

  /**
   * The registered cleanup: `close()` its socket only if that socket is
   * open (one still connecting is left alone); the registration is used up.
   */
  function Cleanup(c: Conn): (r: Conn)
    ensures r.pending.None? && r.socket == c.socket && r.isConnected == c.isConnected
    ensures |r.sockets| == |c.sockets|
    ensures forall j :: 0 <= j < |c.sockets| ==>
              r.sockets[j] == if c.pending == Some(j) && c.sockets[j] == Open then Closing else c.sockets[j]
  {
    var closed := if c.pending.Some? && StateOf(c, c.pending.value) == Some(Open)
                  then SetState(c, c.pending.value, Closing) else c;
    closed.(pending := None)
  }

  /**
   * The effect run when `sessionId` changes: the previous run's cleanup,
   * then, unless the id is empty, a new socket that becomes the hook's
   * `socket` and registers its own cleanup. An empty id leaves `socket` as
   * it was. The boolean says whether a connection was opened.
   */
  function Connect(c: Conn, sessionId: string): (r: (Conn, bool))
    ensures r.1 <==> sessionId != ""
    ensures r.1 ==> && r.0.sockets == Cleanup(c).sockets + [Connecting]
                    && r.0.socket == Some(|c.sockets|) && r.0.pending == r.0.socket
                    && Current(r.0) == Some(Connecting)
    ensures !r.1 ==> r.0 == Cleanup(c)
    ensures r.0.isConnected == c.isConnected
  {
    var cleaned := Cleanup(c);
    if sessionId == "" then (cleaned, false)
    else
      var k := |cleaned.sockets|;
      (cleaned.(sockets := cleaned.sockets + [Connecting], socket := Some(k), pending := Some(k)), true)
  }

  /**
   * `onopen` of socket `k`, whichever socket that is: it is open, the flag
   * is set, and the greeting with id `'1'` is delivered.
   */
  function OnOpen(c: Conn, k: nat, ts: string): (r: (Conn, Payload))
    ensures r.0.isConnected && Moved(c, r.0, k, Open)
    ensures r.1.Single? && r.1.message.id == GreetingId && r.1.message.role == System
    ensures r.1.message.content == GreetingContent
  {
    (SetState(c, k, Open).(isConnected := true), Single(Message(GreetingId, System, GreetingContent, ts)))
  }

  /** `onclose` of socket `k`: that socket is closed and the flag drops, whichever socket it was. */
  function OnClose(c: Conn, k: nat): (r: Conn)
    ensures !r.isConnected && Moved(c, r, k, Closed)
  {
    SetState(c, k, Closed).(isConnected := false)
  }

  /** `onerror` of any socket: the flag drops; the sockets' states are left to the browser. */
  function OnError(c: Conn): (r: Conn)
    ensures !r.isConnected
    ensures r.sockets == c.sockets && r.socket == c.socket && r.pending == c.pending
  {
    c.(isConnected := false)
  }

  /**
   * `closeConnection`: `close()` the hook's `socket` only if it is open,
   * which starts it closing; anything else, and the flag, are left as they
   * are. The boolean says whether `close()` was called.
   */
  function CloseConnection(c: Conn): (r: (Conn, bool))
    ensures r.1 <==> Current(c) == Some(Open)
    ensures r.1 ==> Moved(c, r.0, c.socket.value, Closing)
    ensures !r.1 ==> r.0 == c
    ensures r.0.isConnected == c.isConnected
  {
    if Current(c) == Some(Open) then (SetState(c, c.socket.value, Closing), true) else (c, false)
  }

  /**
   * While the registered cleanup belongs to the hook's `socket` (after any
   * connect with a session id), closing by hand acts on the sockets exactly
   * as the cleanup does.
   */
  lemma CloseConnectionIsCleanup(c: Conn)
    requires c.pending == c.socket
    ensures CloseConnection(c).0.sockets == Cleanup(c).sockets
  {
  }

  // ---------------------------------------------------------------------------
  // Inbound frames
  // ---------------------------------------------------------------------------

  /** Role translation: `assistant` is the system side, anything else the user. */
  function TranslateRole(remote: string): (r: Role)
    ensures r == System <==> remote == "assistant"
  {
    if remote == "assistant" then System else User
  }

  /**
   * The handler reads the clock afresh for every message it builds:
   * `nowAt(k)` is the `Date.now()` digits and `stampAt(k)` the formatted
   * `new Date()` read while building message `k` of the frame (a single
   * message is message 0).
   */
  function HistoryId(nowAt: nat -> string, index: nat): string {
    nowAt(index) + NatToString(index)
  }

  /** A history frame becomes messages of the same length and order, each with its own clock readings. */
  function TranslateHistory(entries: seq<RemoteEntry>, nowAt: nat -> string, stampAt: nat -> string): (r: seq<Message>)
    ensures |r| == |entries|
    ensures forall i :: 0 <= i < |r| ==>
              && r[i].id == nowAt(i) + NatToString(i)
              && r[i].timestamp == stampAt(i)
              && (r[i].role == System <==> entries[i].role == "assistant")
              && r[i].content == entries[i].content
  {
    var r := seq(|entries|, i requires 0 <= i < |entries| =>
      Message(HistoryId(nowAt, i), TranslateRole(entries[i].role), entries[i].content, stampAt(i)));
    assert forall i :: 0 <= i < |r| ==> r[i].id == HistoryId(nowAt, i) && r[i].timestamp == stampAt(i);
    r
  }

  /**
   * The ids of one translated history frame are pairwise distinct as long
   * as the `Date.now()` readings taken while building it have the same
   * number of digits (which millisecond clocks keep for centuries).
   */
  lemma HistoryIdsDistinct(entries: seq<RemoteEntry>, nowAt: nat -> string, stampAt: nat -> string)
    requires forall i :: 0 <= i < |entries| ==> |nowAt(i)| == |nowAt(0)|
    ensures var r := TranslateHistory(entries, nowAt, stampAt);
            forall i, j :: 0 <= i < j < |r| ==> r[i].id != r[j].id
  {
    var r := TranslateHistory(entries, nowAt, stampAt);
    forall i, j | 0 <= i < j < |r|
      ensures r[i].id != r[j].id
    {
      if r[i].id == r[j].id {
        SplitAtLength(nowAt(i), NatToString(i), nowAt(j), NatToString(j));
        NatToStringInjective(i, j);
      }
    }
  }

  /**
   * `onmessage`: nothing for a falsy field or a frame `JSON.parse` rejects
   * (the handler throws before delivering anything), one system message for
   * a non-empty string or another truthy value, a history for an array (even
   * an empty one, which is truthy).
   */
  function OnFrame(field: MessageField, nowAt: nat -> string, stampAt: nat -> string): (r: Option<Payload>)
    ensures r.None? <==> field.NoField? || field.Unparsable? || field == Text("")
    ensures field.Text? && field.text != "" ==>
              r == Some(Single(Message(nowAt(0), System, field.text, stampAt(0))))
    ensures field.Scalar? ==> r == Some(Single(Message(nowAt(0), System, field.json, stampAt(0))))
    ensures field.Entries? ==> r == Some(History(TranslateHistory(field.entries, nowAt, stampAt)))
  {
    match field
    case NoField => None
    case Unparsable => None
    case Text(s) => if s == "" then None else Some(Single(Message(nowAt(0), System, s, stampAt(0))))
    case Scalar(v) => Some(Single(Message(nowAt(0), System, v, stampAt(0))))
    case Entries(es) => Some(History(TranslateHistory(es, nowAt, stampAt)))
  }

  /**
   * A non-empty text frame lands at the end of the log, with the frame's text
   * and the system role, unless its id happens to be the welcome id.
   */
  lemma TextFrameAppends(prev: seq<Message>, text: string, nowAt: nat -> string, stampAt: nat -> string, wid: string)
    requires text != "" && nowAt(0) != wid
    ensures var p := OnFrame(Text(text), nowAt, stampAt);
            p.Some? && Receive(prev, p.value, wid) == prev + [Message(nowAt(0), System, text, stampAt(0))]
  {
  }

  /**
   * A history frame received while the log has a system welcome leaves that
   * welcome first, followed by every entry of the frame in order, provided
   * the welcome id is no longer than any `Date.now()` reading taken for the
   * frame, so that no translated id (those digits and then an index) can
   * equal it.
   */
  lemma HistoryFrameFollowsWelcome(prev: seq<Message>, entries: seq<RemoteEntry>, nowAt: nat -> string, stampAt: nat -> string, wid: string)
    requires HasWelcome(prev, wid)
    requires forall i :: 0 <= i < |entries| ==> |wid| <= |nowAt(i)|
    ensures var p := OnFrame(Entries(entries), nowAt, stampAt);
            var r := Receive(prev, p.value, wid);
            && |r| == |entries| + 1 && IsWelcome(r[0], wid)
            && forall i :: 0 <= i < |entries| ==> r[i + 1].content == entries[i].content
  {
    var msgs := TranslateHistory(entries, nowAt, stampAt);
    assert OnFrame(Entries(entries), nowAt, stampAt) == Some(History(msgs));
    HistoryAvoidsWelcomeId(entries, nowAt, stampAt, wid);
    var r := Receive(prev, History(msgs), wid);
    WelcomeThenHistory(prev, msgs, wid);
    forall i | 0 <= i < |entries|
      ensures r[i + 1].content == entries[i].content
    {
      assert r[i + 1] == r[1..][i] == msgs[i];
    }
  }

  /** A history none of whose ids is the welcome id follows the welcome unchanged. */
  lemma WelcomeThenHistory(prev: seq<Message>, msgs: seq<Message>, wid: string)
    requires HasWelcome(prev, wid) && WithoutWelcomeId(msgs, wid) == msgs
    ensures var r := Receive(prev, History(msgs), wid);
            |r| == |msgs| + 1 && IsWelcome(r[0], wid) && r[1..] == msgs
  {
    assert Receive(prev, History(msgs), wid) == MergeHistory(prev, msgs, wid);
  }

  /** No translated history id is as short as a welcome id no longer than its reading, so none is dropped as one. */
  lemma HistoryAvoidsWelcomeId(entries: seq<RemoteEntry>, nowAt: nat -> string, stampAt: nat -> string, wid: string)
    requires forall i :: 0 <= i < |entries| ==> |wid| <= |nowAt(i)|
    ensures WithoutWelcomeId(TranslateHistory(entries, nowAt, stampAt), wid) == TranslateHistory(entries, nowAt, stampAt)
  {
    var msgs := TranslateHistory(entries, nowAt, stampAt);
    forall i | 0 <= i < |msgs|
      ensures msgs[i].id != wid
    {
      assert |msgs[i].id| == |nowAt(i)| + |NatToString(i)| > |wid|;
    }
  }

  // ---------------------------------------------------------------------------
  // Outbound
  // ---------------------------------------------------------------------------

  /**
   * `sendMessage`: refuse blank text and a hook `socket` that is missing or
   * not open; otherwise send exactly one frame carrying the untrimmed text.
   */
  function SendMessage(c: Conn, text: string): (r: (bool, seq<Outbound>))
    ensures r.0 <==> Trim(text) != "" && Current(c) == Some(Open)
    ensures r.0 ==> r.1 == [Outbound(text)]
    ensures !r.0 ==> r.1 == []
  {
    if Trim(text) == "" || Current(c) != Some(Open) then (false, [])
    else (true, [Outbound(text)])
  }

  /** Blank text is never sent; text with a visible character is sent once the new socket has opened. */
  lemma SendAfterOpen(c: Conn, sessionId: string, text: string, ts: string)
    requires sessionId != ""
    ensures var live := OnOpen(Connect(c, sessionId).0, |c.sockets|, ts).0;
            SendMessage(live, text).0 <==> !IsBlank(text)
  {
    TrimEmptyIffBlank(text);
  }

  /** Nothing is sent before the hook's socket opens or after it closes, whatever the text. */
  lemma NoSendUnlessOpen(c: Conn, sessionId: string, text: string)
    ensures SendMessage(Connect(c, sessionId).0, text).1 == [] || sessionId == ""
    ensures c.socket.Some? ==> SendMessage(OnClose(c, c.socket.value), text).1 == []
  {
  }

  /**
   * A late close of a socket the hook no longer holds clears `isConnected`,
   * yet sending goes on exactly as before through the hook's own socket.
   */
  lemma StaleCloseKeepsSending(c: Conn, k: nat, text: string)
    requires c.socket.Some? && k != c.socket.value
    ensures !OnClose(c, k).isConnected
    ensures SendMessage(OnClose(c, k), text) == SendMessage(c, text)
  {
  }

  /**
   * Session "s1" opens, the session changes to "s2" (the cleanup starts
   * closing s1) and s2 opens; when s1's close event then arrives, the flag
   * says disconnected while text with a visible character is still sent.
   */
  lemma ReplacedSocketClosesLate(c: Conn, ts: string, text: string)
    ensures var k1 := |c.sockets|;
            var c1 := OnOpen(Connect(c, "s1").0, k1, ts).0;
            var c2 := OnOpen(Connect(c1, "s2").0, k1 + 1, ts).0;
            var c3 := OnClose(c2, k1);
            && StateOf(c2, k1) == Some(Closing)
            && !c3.isConnected
            && (SendMessage(c3, text).0 <==> !IsBlank(text))
  {
    var k1 := |c.sockets|;
    var c1 := OnOpen(Connect(c, "s1").0, k1, ts).0;
    var c2 := OnOpen(Connect(c1, "s2").0, k1 + 1, ts).0;
    assert Current(c2) == Some(Open);
    StaleCloseKeepsSending(c2, k1, text);
    TrimEmptyIffBlank(text);
  }

  /**
   * A socket still connecting when the session changes is not closed by the
   * cleanup; when it opens later it sets `isConnected` and delivers another
   * greeting, while the hook's new socket, still connecting, refuses sends.
   */
  lemma ConnectingSocketOutlivesSession(c: Conn, ts: string, text: string)
    ensures var k1 := |c.sockets|;
            var c2 := Connect(Connect(c, "s1").0, "s2").0;
            var late := OnOpen(c2, k1, ts);
            && StateOf(c2, k1) == Some(Connecting)
            && late.0.isConnected && late.1.message.id == GreetingId
            && StateOf(late.0, k1) == Some(Open)
            && !SendMessage(late.0, text).0
  {
    var k1 := |c.sockets|;
    var c1 := Connect(c, "s1").0;
    var c2 := Connect(c1, "s2").0;
    assert c1.sockets[k1] == Connecting;
    assert Current(c2) == Some(Connecting);
  }
}
