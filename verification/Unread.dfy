/** Unread counters of a client, in memory and in its vault
    (crates/mutte-client/src/engine.rs, crates/mutte-store/src/lib.rs). */
module Unread {
  import opened Common

  const U16_MAX: nat := 0xFFFF

  datatype Msg = Msg(id: nat, mine: bool, thread: Option<nat>, read: bool)

  /** A conversation as the vault holds it. */
  datatype Stored = Stored(messages: seq<Msg>, unread: nat)

  /** The same conversation on screen, with the thread it shows. */
  datatype Chat = Chat(messages: seq<Msg>, unread: nat, thread: Option<nat>)

  /** The conversation and scope the user looks at. */
  datatype Visible = Visible(conversation: nat, thread: Option<nat>)

  /** The vault in memory, the document it was read from, and the chats on screen. */
  datatype State = State(vault: map<nat, Stored>, disk: map<nat, Stored>, chats: map<nat, Chat>, visible: Option<Visible>)

  /** The main conversation, or one thread with its root. */
  predicate InScope(m: Msg, scope: Option<nat>) {
    match scope
    case None => m.thread.None?
    case Some(root) => m.id == root || m.thread == Some(root)
  }

  function SatInc(n: nat): nat { if n < U16_MAX then n + 1 else U16_MAX }

  function SatSub(n: nat, k: nat): nat { Max(0, n - Min(k, U16_MAX)) }

  predicate Has(ms: seq<Msg>, id: nat) { exists m :: m in ms && m.id == id }

  /** A peer message in scope that is still unread. */
  predicate Fresh(m: Msg, scope: Option<nat>) { !m.mine && !m.read && InScope(m, scope) }

  function FreshIds(ms: seq<Msg>, scope: Option<nat>): seq<nat> {
    if ms == [] then []
    else
      var rest := FreshIds(ms[..|ms| - 1], scope);
      if Fresh(ms[|ms| - 1], scope) then rest + [ms[|ms| - 1].id] else rest
  }

  function ReadScope(ms: seq<Msg>, scope: Option<nat>): (r: seq<Msg>)
    ensures |r| == |ms|
    ensures forall i :: 0 <= i < |ms| ==> r[i] == ms[i].(read := ms[i].read || Fresh(ms[i], scope))
  {
    seq(|ms|, i requires 0 <= i < |ms| => ms[i].(read := ms[i].read || Fresh(ms[i], scope)))
  }

  function ReadIds(ms: seq<Msg>, ids: seq<nat>): (r: seq<Msg>)
    ensures |r| == |ms|
    ensures forall i :: 0 <= i < |ms| ==> r[i] == ms[i].(read := ms[i].read || ms[i].id in ids)
  {
    seq(|ms|, i requires 0 <= i < |ms| => ms[i].(read := ms[i].read || ms[i].id in ids))
  }

  // ---------------------------------------------------------------- steps

  /** A vault edit: undone in memory when its save reports failure. */
  function Commit(s: State, next: map<nat, Stored>, save: Save): State {
    s.(vault := if save.Saved? then next else s.vault, disk := save.OnDisk(s.disk, next))
  }

  function BoxOf(s: State, c: nat, current: nat): Stored {
    if c in s.vault then s.vault[c] else Stored([], current)
  }

  /** A chat exists on screen once it exists in the vault. */
  function EnsureChat(s: State, c: nat, save: Save): State {
    if c in s.chats then s
    else
      var t := Commit(s, s.vault[c := BoxOf(s, c, 0)], save);
      if save.Saved? then t.(chats := s.chats[c := Chat([], 0, None)]) else t
  }

  predicate Seen(s: State, c: nat, id: nat, thread: Option<nat>) {
    match s.visible
    case None => false
    case Some(v) => v.conversation == c && InScope(Msg(id, false, thread, false), v.thread)
  }

  function Added(box: Stored, m: Msg, unread: bool): Stored {
    Stored(box.messages + [m], if unread then SatInc(box.unread) else box.unread)
  }

  function AddedOnScreen(chat: Chat, m: Msg, unread: bool): Chat {
    chat.(messages := chat.messages + [m], unread := if unread then SatInc(chat.unread) else chat.unread)
  }

  /** The idempotent insertion into a chat that is on screen. */
  function Insert(s: State, c: nat, m: Msg, unread: bool, save: Save): State
    requires c in s.chats
  {
    var box := BoxOf(s, c, s.chats[c].unread);
    if Has(box.messages, m.id) then s
    else
      var t := Commit(s, s.vault[c := Added(box, m, unread)], save);
      if save.Saved? then t.(chats := s.chats[c := AddedOnScreen(s.chats[c], m, unread)]) else t
  }

  /** An inbound message; `saved` and `stored` are the outcomes of the two vault writes. */
  function Arrive(s: State, c: nat, id: nat, mine: bool, thread: Option<nat>, saved: Save, stored: Save): State {
    if id == 0 || thread == Some(id) then s
    else
      var t := EnsureChat(s, c, saved);
      if c !in t.chats then t
      else
        var unread := !mine && !Seen(t, c, id, thread);
        Insert(t, c, Msg(id, mine, thread, !unread), unread, stored)
  }

  /** An own message written on this device. */
  function Write(s: State, c: nat, id: nat, thread: Option<nat>, stored: Save): State {
    if c !in s.chats || c !in s.vault then s
    else
      var m := Msg(id, true, thread, true);
      var t := Commit(s, s.vault[c := Added(s.vault[c], m, false)], stored);
      if stored.Saved? then t.(chats := s.chats[c := AddedOnScreen(s.chats[c], m, false)]) else t
  }

  predicate CanShow(s: State, c: nat, thread: Option<nat>) {
    c in s.chats
    && (thread.Some? ==> exists m :: m in s.chats[c].messages && m.id == thread.value && m.thread.None?)
  }

  function ShowThread(s: State, c: nat, thread: Option<nat>): State
    requires c in s.chats
  {
    s.(chats := s.chats[c := s.chats[c].(thread := thread)])
  }

  function ReadBox(box: Stored, scope: Option<nat>): Stored {
    Stored(ReadScope(box.messages, scope), SatSub(box.unread, |FreshIds(box.messages, scope)|))
  }

  function ReadChat(chat: Chat, ids: seq<nat>): Chat {
    if ids == [] then chat
    else chat.(messages := ReadIds(chat.messages, ids), unread := SatSub(chat.unread, |ids|))
  }

  predicate MarksRead(s: State, c: nat, stored: Save) { c in s.vault && stored.Saved? }

  /** Reads the scope the chat shows, in the vault and then on screen. */
  function MarkRead(s: State, c: nat, stored: Save): State
    requires c in s.chats
  {
    if c !in s.vault then s
    else
      var scope := s.chats[c].thread;
      var t := Commit(s, s.vault[c := ReadBox(s.vault[c], scope)], stored);
      if stored.Saved? then t.(chats := s.chats[c := ReadChat(s.chats[c], FreshIds(s.vault[c].messages, scope))]) else t
  }

  /** The command that reads a scope; it also turns a visible chat to that scope. */
  function Read(s: State, c: nat, thread: Option<nat>, stored: Save): State {
    if !CanShow(s, c, thread) then s
    else
      var seen := s.visible.Some? && s.visible.value.conversation == c;
      var t := ShowThread(s, c, thread).(visible := if seen then Some(Visible(c, thread)) else s.visible);
      MarkRead(t, c, stored)
  }

  /** The command that shows a scope: it is read first, and visible only once that worked. */
  function Look(s: State, c: nat, thread: Option<nat>, stored: Save): State {
    if !CanShow(s, c, thread) then s
    else
      var t := ShowThread(s, c, thread);
      var u := MarkRead(t, c, stored);
      if MarksRead(t, c, stored) then u.(visible := Some(Visible(c, thread))) else u
  }

  /** The next process starts from the document. */
  function Restart(s: State): State {
    State(s.disk, s.disk, map c | c in s.disk :: Chat(s.disk[c].messages, s.disk[c].unread, None), None)
  }

  // ---------------------------------------------------------------- the program

  class Client {
    var vault: map<nat, Stored>
    var disk: map<nat, Stored>
    var chats: map<nat, Chat>
    var visible: Option<Visible>

    ghost function Now(): State reads this { State(vault, disk, chats, visible) }

    /** An edit of the vault: written aside, renamed, synchronised; undone in memory on failure. */
    method Persist(next: map<nat, Stored>, save: Save) returns (ok: bool)
      modifies this`vault, this`disk
      ensures Now() == Commit(old(Now()), next, save) && ok == save.Saved?
    {
      if save != LostOld { disk := next; }
      if save != Saved { return false; }
      vault := next;
      ok := true;
    }

    method EnsureOnScreen(c: nat, save: Save) returns (ok: bool)
      modifies this`vault, this`disk, this`chats
      ensures Now() == EnsureChat(old(Now()), c, save) && ok == (c in chats)
    {
      if c in chats { return true; }
      ok := Persist(vault[c := if c in vault then vault[c] else Stored([], 0)], save);
      if ok { chats := chats[c := Chat([], 0, None)]; }
    }

    method PresentChatMessage(c: nat, id: nat, mine: bool, thread: Option<nat>, saved: Save, stored: Save)
      modifies this
      ensures Now() == Arrive(old(Now()), c, id, mine, thread, saved, stored)
    {
      if id == 0 || thread == Some(id) { return; }
      var ok := EnsureOnScreen(c, saved);
      if !ok { return; }
      var seen := visible.Some? && visible.value.conversation == c
                  && match visible.value.thread
                     case Some(root) => id == root || thread == Some(root)
                     case None => thread.None?;
      var unread := !mine && !seen;
      var m := Msg(id, mine, thread, !unread);
      var inserted := StoreInbound(c, m, chats[c].unread, unread, stored);
      if inserted { chats := chats[c := AddedOnScreen(chats[c], m, unread)]; }
    }

    /** The vault's insertion: idempotent by message id, undone when it cannot be saved. */
    method StoreInbound(c: nat, m: Msg, current: nat, unread: bool, stored: Save) returns (inserted: bool)
      modifies this`vault, this`disk
      ensures
        var box := BoxOf(old(Now()), c, current);
        && inserted == (!Has(box.messages, m.id) && stored.Saved?)
        && Now() == if Has(box.messages, m.id) then old(Now())
                    else Commit(old(Now()), old(vault)[c := Added(box, m, unread)], stored)
    {
      var box := if c in vault then vault[c] else Stored([], current);
      if exists x :: x in box.messages && x.id == m.id { return false; }
      box := box.(messages := box.messages + [m]);
      if unread { box := box.(unread := SatInc(box.unread)); }
      inserted := Persist(vault[c := box], stored);
    }

    /** The vault's part of reading: the ids that became read. */
    method VaultMarkRead(c: nat, scope: Option<nat>, stored: Save) returns (r: Option<seq<nat>>)
      modifies this`vault, this`disk
      ensures r.Some? <==> MarksRead(old(Now()), c, stored)
      ensures r.Some? ==> r.value == FreshIds(old(vault)[c].messages, scope)
      ensures Now() == if c in old(vault) then Commit(old(Now()), old(vault)[c := ReadBox(old(vault)[c], scope)], stored)
                       else old(Now())
    {
      if c !in vault { return None; }
      var messages, ids := MarkScope(vault[c].messages, scope);
      var ok := Persist(vault[c := Stored(messages, SatSub(vault[c].unread, |ids|))], stored);
      r := if ok then Some(ids) else None;
    }

    method MarkSelectedRead(c: nat, stored: Save) returns (ok: bool)
      requires c in chats
      modifies this`vault, this`disk, this`chats
      ensures ok == MarksRead(old(Now()), c, stored) && Now() == MarkRead(old(Now()), c, stored)
    {
      var ids := VaultMarkRead(c, chats[c].thread, stored);
      if ids.None? { return false; }
      if ids.value != [] {
        var messages := MarkEach(chats[c].messages, ids.value);
        chats := chats[c := chats[c].(messages := messages, unread := SatSub(chats[c].unread, |ids.value|))];
      }
      ok := true;
    }

    method SetSelectedThread(c: nat, thread: Option<nat>) returns (ok: bool)
      modifies this`chats
      ensures ok == CanShow(old(Now()), c, thread)
      ensures chats == if ok then ShowThread(old(Now()), c, thread).chats else old(chats)
    {
      if c !in chats { return false; }
      if thread.Some? && !(exists m :: m in chats[c].messages && m.id == thread.value && m.thread.None?) {
        return false;
      }
      chats := chats[c := chats[c].(thread := thread)];
      ok := true;
    }

    method ReadCommand(c: nat, thread: Option<nat>, stored: Save)
      modifies this
      ensures Now() == Read(old(Now()), c, thread, stored)
    {
      var ok := SetSelectedThread(c, thread);
      if !ok { return; }
      if visible.Some? && visible.value.conversation == c {
        visible := Some(Visible(c, thread));
      }
      ok := MarkSelectedRead(c, stored);
    }

    method SetSelectedVisible(c: nat, thread: Option<nat>, stored: Save)
      modifies this
      ensures Now() == Look(old(Now()), c, thread, stored)
    {
      var ok := SetSelectedThread(c, thread);
      if !ok { return; }
      ok := MarkSelectedRead(c, stored);
      if ok { visible := Some(Visible(c, thread)); }
    }
  }

  /** Marks the scope's unread messages of others and names them. */
  method MarkScope(ms: seq<Msg>, scope: Option<nat>) returns (r: seq<Msg>, ids: seq<nat>)
    ensures r == ReadScope(ms, scope) && ids == FreshIds(ms, scope)
  {
    r, ids := ms, [];
    for i := 0 to |ms|
      invariant |r| == |ms| && ids == FreshIds(ms[..i], scope)
      invariant forall j :: 0 <= j < i ==> r[j] == ReadScope(ms, scope)[j]
      invariant forall j :: i <= j < |r| ==> r[j] == ms[j]
    {
      assert ms[..i + 1][..i] == ms[..i];
      if !r[i].mine && !r[i].read && InScope(r[i], scope) {
        ids := ids + [r[i].id];
        r := r[i := r[i].(read := true)];
      }
    }
    assert ms[..|ms|] == ms;
  }

  /** Marks on screen the messages the vault named. */
  method MarkEach(ms: seq<Msg>, ids: seq<nat>) returns (r: seq<Msg>)
    ensures r == ReadIds(ms, ids)
  {
    r := ms;
    for i := 0 to |ms|
      invariant |r| == |ms|
      invariant forall j :: 0 <= j < i ==> r[j] == ReadIds(ms, ids)[j]
      invariant forall j :: i <= j < |ms| ==> r[j] == ms[j]
    {
      if r[i].id in ids { r := r[i := r[i].(read := true)]; }
    }
  }
}
