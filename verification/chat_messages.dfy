/**
 * The chat message log kept by the `useMessages` hook: a sequence of messages
 * with a pinned "welcome" entry, merged from history frames, single inbound
 * messages and locally typed user messages, and mirrored to local storage.
 *
 * The welcome id (`INITIAL_MESSAGE_ID`), its text (`INITIAL_MESSAGE_CONTENT`)
 * and the storage key (`STORAGE_KEY`) come from a constants file outside this
 * model, so they are parameters here (`wid`, `content`, `key`). Fresh ids and
 * timestamps (`Date.now()`, `formatTimestamp`) are parameters too.
 */
module ChatMessages {
  import opened Common

  datatype Role = System | User

  datatype Message = Message(id: string, role: Role, content: string, timestamp: string)

  /** What the transport hands to `handleMessageReceived`: one message or a whole history. */
  datatype Payload = Single(message: Message) | History(messages: seq<Message>)

  /** The hook's state: the log and the `initialMessageAddedRef` flag. */
  datatype Store = Store(log: seq<Message>, welcomeAdded: bool)

  /** A persisted value as `JSON.parse` sees it: it throws, yields a non-array, or an array. */
  datatype Stored = Unreadable | NotAnArray | Log(messages: seq<Message>)

  type Storage = map<string, Stored>

  /** The state on mount: an empty log, welcome not yet added. */
  const InitialStore: Store := Store([], false)

  // ---------------------------------------------------------------------------
  // The welcome entry and the pinning invariant
  // ---------------------------------------------------------------------------

  /** The predicate the hook uses to recognise the welcome: its id and the system role. */
  predicate IsWelcome(m: Message, wid: string) {
    m.id == wid && m.role == System
  }

  predicate HasWelcome(log: seq<Message>, wid: string) {
    exists i :: 0 <= i < |log| && IsWelcome(log[i], wid)
  }

  /** Some entry carries the welcome id, whatever its role. */
  predicate HasWelcomeId(log: seq<Message>, wid: string) {
    exists i :: 0 <= i < |log| && log[i].id == wid
  }

  /** Number of entries carrying the welcome id. */
  function CountId(log: seq<Message>, wid: string): nat {
    if |log| == 0 then 0 else (if log[0].id == wid then 1 else 0) + CountId(log[1..], wid)
  }

  /** The log invariant: no entry after index 0 carries the welcome id. */
  predicate WelcomePinned(log: seq<Message>, wid: string) {
    forall i :: 0 < i < |log| ==> log[i].id != wid
  }

  lemma {:induction false} CountIdZero(log: seq<Message>, wid: string)
    ensures CountId(log, wid) == 0 <==> !HasWelcomeId(log, wid)
    decreases |log|
  {
    if |log| > 0 {
      CountIdZero(log[1..], wid);
      if HasWelcomeId(log[1..], wid) {
        var i :| 0 <= i < |log[1..]| && log[1..][i].id == wid;
        assert log[i + 1].id == wid;
      }
      if log[0].id != wid && HasWelcomeId(log, wid) {
        var i :| 0 <= i < |log| && log[i].id == wid;
        assert log[1..][i - 1].id == wid;
      }
    }
  }

  /** The invariant says exactly: at most one welcome-id entry, and if there is one it is first. */
  lemma PinnedIffAtMostOneFirst(log: seq<Message>, wid: string)
    ensures WelcomePinned(log, wid) <==>
              CountId(log, wid) <= 1 && (CountId(log, wid) == 1 ==> log[0].id == wid)
  {
    if |log| > 0 {
      CountIdZero(log[1..], wid);
      if WelcomePinned(log, wid) {
        assert !HasWelcomeId(log[1..], wid);
      } else {
        var i :| 0 < i < |log| && log[i].id == wid;
        assert log[1..][i - 1].id == wid;
      }
    }
  }

  /** `m => m.id === wid && m.role === 'system'`. */
  function IsWelcomeFor(wid: string): Message -> bool {
    (m: Message) => IsWelcome(m, wid)
  }

  /** `prev.find(m => m.id === wid && m.role === 'system')`: the first system welcome of the log. */
  function FindWelcome(log: seq<Message>, wid: string): (r: Option<Message>)
    ensures r.Some? <==> HasWelcome(log, wid)
    ensures r.Some? ==> IsWelcome(r.value, wid) && r.value in log
    ensures r.Some? ==> exists i :: 0 <= i < |log| && log[i] == r.value &&
                                    forall j :: 0 <= j < i ==> !IsWelcome(log[j], wid)
  {
    FindFirst(log, IsWelcomeFor(wid))
  }

  /** `m => m.id !== wid`. */
  function IdIsNot(wid: string): Message -> bool {
    (m: Message) => m.id != wid
  }

  /** `msgs.filter(m => m.id !== wid)`. */
  function WithoutWelcomeId(msgs: seq<Message>, wid: string): (r: seq<Message>)
    ensures !HasWelcomeId(r, wid)
    ensures forall i :: 0 <= i < |msgs| && msgs[i].id != wid ==> msgs[i] in r
    ensures forall i :: 0 <= i < |r| ==> r[i] in msgs
    ensures forall m :: multiset(r)[m] == if m.id != wid then multiset(msgs)[m] else 0
    ensures IsSubsequence(r, msgs)
  {
    Filter(msgs, IdIsNot(wid))
  }

  // ---------------------------------------------------------------------------
  // handleMessageReceived
  // ---------------------------------------------------------------------------

  /** A history array: keep our welcome in front and drop incoming welcome-id entries. */
  function MergeHistory(prev: seq<Message>, incoming: seq<Message>, wid: string): (r: seq<Message>)
    ensures HasWelcome(prev, wid) ==>
              && |r| >= 1
              && IsWelcome(r[0], wid) && r[0] in prev
              && r[1..] == WithoutWelcomeId(incoming, wid)
              && WelcomePinned(r, wid)
    ensures !HasWelcome(prev, wid) ==> r == incoming
  {
    match FindWelcome(prev, wid)
    case Some(w) =>
      var rest := WithoutWelcomeId(incoming, wid);
      var r := [w] + rest;
      assert forall i :: 0 < i < |r| ==> r[i] == rest[i - 1];
      r
    case None => incoming
  }

  /** A single message: a system welcome goes first only if no welcome-id entry exists; others are appended. */
  function MergeSingle(prev: seq<Message>, m: Message, wid: string): (r: seq<Message>)
    ensures IsWelcome(m, wid) && HasWelcomeId(prev, wid) ==> r == prev
    ensures IsWelcome(m, wid) && !HasWelcomeId(prev, wid) ==> r == [m] + prev
    ensures !IsWelcome(m, wid) ==> |r| == |prev| + 1 && r[..|prev|] == prev && r[|prev|] == m
  {
    if IsWelcome(m, wid) then
      if |prev| > 0 && !HasWelcomeId(prev, wid) then [m] + prev
      else if |prev| == 0 then [m]
      else prev
    else prev + [m]
  }

  /**
   * `handleMessageReceived`: a system welcome already in the log is never
   * lost, and a single message is always in the result unless it is a
   * welcome whose id the log already has.
   */
  function Receive(prev: seq<Message>, p: Payload, wid: string): (r: seq<Message>)
    ensures HasWelcome(prev, wid) ==> HasWelcome(r, wid)
    ensures p.Single? && !(IsWelcome(p.message, wid) && HasWelcomeId(prev, wid)) ==> p.message in r
  {
    match p
    case History(msgs) => MergeHistory(prev, msgs, wid)
    case Single(m) => MergeSingle(prev, m, wid)
  }

  /**
   * Merging preserves the pinned-welcome invariant, provided nothing but a
   * system welcome carries the welcome id and a history adopted verbatim is
   * itself pinned.
   */
  lemma {:induction false} ReceivePreservesPinned(prev: seq<Message>, p: Payload, wid: string)
    requires WelcomePinned(prev, wid)
    requires p.Single? && p.message.id == wid ==> p.message.role == System
    requires p.History? && !HasWelcome(prev, wid) ==> WelcomePinned(p.messages, wid)
    ensures WelcomePinned(Receive(prev, p, wid), wid)
  {
    var r := Receive(prev, p, wid);
    match p
    case History(msgs) =>
    case Single(m) =>
      if IsWelcome(m, wid) {
        if !HasWelcomeId(prev, wid) {
          assert forall i :: 0 < i < |r| ==> r[i] == prev[i - 1];
        }
      } else {
        assert m.id != wid;
        assert forall i :: 0 < i < |prev| ==> r[i] == prev[i];
      }
  }

  // ---------------------------------------------------------------------------
  // The ensure-welcome effect, addUserMessage, resetMessages
  // ---------------------------------------------------------------------------

  function WelcomeMessage(wid: string, content: string, ts: string): Message {
    Message(wid, System, content, ts)
  }

  /**
   * The effect run after every change of the log: unless the flag is set or a
   * system welcome is present, put a fresh welcome first and drop every other
   * welcome-id entry.
   */
  function EnsureWelcome(st: Store, wid: string, content: string, ts: string): (r: Store)
    ensures st.welcomeAdded || HasWelcome(st.log, wid) ==> r == st
    ensures !st.welcomeAdded && !HasWelcome(st.log, wid) ==>
              && r.welcomeAdded
              && |r.log| >= 1 && r.log[0] == WelcomeMessage(wid, content, ts)
              && WelcomePinned(r.log, wid) && CountId(r.log, wid) == 1
              && (forall i :: 0 <= i < |st.log| && st.log[i].id != wid ==> st.log[i] in r.log)
              && (forall i :: 0 < i < |r.log| ==> r.log[i] in st.log)
              && r.log == [WelcomeMessage(wid, content, ts)] + WithoutWelcomeId(st.log, wid)
  {
    if st.welcomeAdded || HasWelcome(st.log, wid) then st
    else
      var w := WelcomeMessage(wid, content, ts);
      var rest := WithoutWelcomeId(st.log, wid);
      var log := [w] + rest;
      assert forall i :: 0 < i < |log| ==> log[i] == rest[i - 1];
      PinnedIffAtMostOneFirst(log, wid);
      CountIdZero(rest, wid);
      Store(log, true)
  }

  /** `addUserMessage`: the new log and the message it returns. */
  function AddUserMessage(log: seq<Message>, freshId: string, content: string, ts: string)
    : (r: (seq<Message>, Message))
    ensures r.1.role == User && r.1.content == content && r.1.id == freshId
    ensures r.0 == log + [r.1]
  {
    var m := Message(freshId, User, content, ts);
    (log + [m], m)
  }

  /** A typed message is merged exactly like an inbound non-welcome message. */
  lemma AddUserMessageIsAppend(log: seq<Message>, freshId: string, content: string, ts: string, wid: string)
    ensures AddUserMessage(log, freshId, content, ts).0 ==
            Receive(log, Single(AddUserMessage(log, freshId, content, ts).1), wid)
  {
  }

  /** `resetMessages`: empty log, flag cleared, stored copy removed. */
  function Reset(st: Store, storage: Storage, key: string): (r: (Store, Storage))
    ensures r.0.log == [] && !r.0.welcomeAdded
    ensures key !in r.1
    ensures forall k :: k in storage && k != key ==> k in r.1 && r.1[k] == storage[k]
    ensures forall k :: k in r.1 ==> k in storage
  {
    (Store([], false), storage - {key})
  }

  /** After a reset, the ensure-welcome effect leaves exactly the fresh welcome. */
  lemma ResetThenWelcome(st: Store, storage: Storage, key: string, wid: string, content: string, ts: string)
    ensures EnsureWelcome(Reset(st, storage, key).0, wid, content, ts).log == [WelcomeMessage(wid, content, ts)]
  {
  }

  // ---------------------------------------------------------------------------
  // Persistence
  // ---------------------------------------------------------------------------

  /** The save effect: a non-empty log is written under `key`; an empty one is never written. */
  function Persist(storage: Storage, key: string, log: seq<Message>): (r: Storage)
    ensures |log| > 0 ==> key in r && r[key] == Log(log)
    ensures |log| == 0 ==> r == storage
    ensures forall k :: k != key ==> (k in r <==> k in storage)
    ensures forall k :: k != key && k in storage ==> r[k] == storage[k]
  {
    if |log| > 0 then storage[key := Log(log)] else storage
  }

  /** The stored value under `key` is an array with at least one message. */
  predicate Adoptable(storage: Storage, key: string) {
    key in storage && storage[key].Log? && |storage[key].messages| > 0
  }

  /**
   * The load effect on mount: a stored non-empty array replaces the log and
   * sets the flag when it holds a system welcome; a missing, unreadable,
   * non-array or empty value changes nothing.
   */
  function Load(st: Store, storage: Storage, key: string, wid: string): (r: Store)
    ensures Adoptable(storage, key) ==>
              r.log == storage[key].messages &&
              (r.welcomeAdded <==> st.welcomeAdded || HasWelcome(r.log, wid))
    ensures !Adoptable(storage, key) ==> r == st
  {
    if Adoptable(storage, key) then
      var msgs := storage[key].messages;
      Store(msgs, st.welcomeAdded || HasWelcome(msgs, wid))
    else st
  }

  /** A non-empty log written under `key` is read back unchanged under `key`. */
  lemma PersistThenLoad(st: Store, storage: Storage, key: string, wid: string, log: seq<Message>)
    requires |log| > 0
    ensures Load(st, Persist(storage, key, log), key, wid).log == log
  {
  }

  /** Writing under `key` does not change what is loaded under any other key. */
  lemma PersistOtherKey(st: Store, storage: Storage, key: string, other: string, wid: string, log: seq<Message>)
    requires other != key
    ensures Load(st, Persist(storage, key, log), other, wid) == Load(st, storage, other, wid)
  {
  }
}
