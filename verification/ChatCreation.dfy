/** ensureChatExists: any number of callers racing to create the same chats with separate commands. */
module ChatCreation {
  import opened Jids
  import opened Options

  datatype Chat = Chat(id: nat, org: nat, session: nat, jid: Jid, group: bool)

  /** A call; `resolved` is what resolveLidJid answered. */
  datatype Call = Call(org: nat, session: nat, resolved: Jid)

  datatype Phase = Begun | Missed | Conflicted | Done(id: Option<nat>)

  datatype Caller = Caller(call: Call, phase: Phase)

  /** Ids are drawn fresh; rows are kept in the order they were inserted. */
  datatype State = State(chats: seq<Chat>, nextId: nat, callers: seq<Caller>)

  datatype Action = Arrive(call: Call) | Next(caller: nat) | Delete(session: nat, jid: Jid)

  function JidOf(call: Call): Jid {
    NormalizeJid(call.resolved)
  }

  /** Status broadcasts and channels get no chat. */
  predicate Excluded(jid: Jid) {
    EndsWith(jid, "@broadcast") || EndsWith(jid, "@newsletter") || jid == "status"
  }

  /** The unique index is on session and JID; the organisation is not part of it. */
  predicate IsFor(chat: Chat, call: Call) {
    chat.session == call.session && chat.jid == JidOf(call)
  }

  /** Two calls on one chat. */
  predicate Rivals(a: Call, b: Call) {
    a.session == b.session && JidOf(a) == JidOf(b)
  }

  predicate Taken(chats: seq<Chat>, call: Call) {
    exists i | 0 <= i < |chats| :: IsFor(chats[i], call)
  }

  /** SELECT with organisation, session and JID. */
  function Select(chats: seq<Chat>, call: Call): Option<nat> {
    if chats == [] then None
    else if IsFor(chats[0], call) && chats[0].org == call.org then Some(chats[0].id)
    else Select(chats[1..], call)
  }

  /** Channels, broadcasts and the status are excluded, groups and people are not. */
  lemma ExcludedServers(user: string)
    requires '@' !in user
    ensures Excluded(user + "@newsletter") && Excluded(user + "@broadcast") && Excluded("status")
    ensures !Excluded(user + "@g.us") && !Excluded(user + "@s.whatsapp.net") && !Excluded(user + "@lid")
  {
    EndsWithServer(user, "@newsletter");
    EndsWithServer(user, "@broadcast");
    NotExcluded(user + "@g.us");
    NotExcluded(user + "@s.whatsapp.net");
    NotExcluded(user + "@lid");
  }

  lemma EndsWithServer(user: string, server: string)
    ensures EndsWith(user + server, server)
  {
  }

  /** The two excluded servers end in "er" and "st". */
  lemma NotExcluded(jid: Jid)
    requires |jid| >= 4 && '@' in jid
    requires jid[|jid| - 1] != 'r' && (jid[|jid| - 1] == 't' ==> jid[|jid| - 2] != 's')
    ensures !Excluded(jid)
  {
    if EndsWith(jid, "@broadcast") {
      LastTwo(jid, "@broadcast");
      assert false;
    }
    if EndsWith(jid, "@newsletter") {
      LastTwo(jid, "@newsletter");
      assert false;
    }
  }

  lemma LastTwo(s: string, t: string)
    requires EndsWith(s, t) && |t| >= 2
    ensures s[|s| - 1] == t[|t| - 1] && s[|s| - 2] == t[|t| - 2]
  {
    assert s[|s| - |t|..][|t| - 1] == s[|s| - 1] && s[|s| - |t|..][|t| - 2] == s[|s| - 2];
  }

  /** Calls that name one user with different devices are calls on one chat. */
  lemma DevicesShareAChat(a: Call, b: Call, user: string, device: string, server: string)
    requires '@' !in user && ':' !in user && '@' !in device && a.session == b.session
    requires a.resolved == user + ":" + device + "@" + server && b.resolved == user + "@" + server
    ensures Rivals(a, b) && JidOf(a) == user + "@" + server
  {
    DevicesNormalizeAlike(user, device, server);
  }

  function NewChat(id: nat, call: Call): Chat {
    Chat(id, call.org, call.session, JidOf(call), EndsWith(JidOf(call), "@g.us"))
  }

  /** The next command of one caller. */
  function Proceed(s: State, k: nat): State
    requires k < |s.callers|
  {
    var c := s.callers[k];
    match c.phase
    case Begun =>
      if Excluded(JidOf(c.call)) then At(s, k, Done(None))
      else
        var found := Select(s.chats, c.call);
        At(s, k, if found.Some? then Done(found) else Missed)
    case Missed =>
      if Taken(s.chats, c.call) then At(s, k, Conflicted)
      else
        At(s, k, Done(Some(s.nextId))).(chats := s.chats + [NewChat(s.nextId, c.call)], nextId := s.nextId + 1)
    case Conflicted => At(s, k, Done(Select(s.chats, c.call)))
    case Done(_) => s
  }

  function At(s: State, k: nat, phase: Phase): State
    requires k < |s.callers|
  {
    s.(callers := s.callers[k := s.callers[k].(phase := phase)])
  }

  /** Where the row of a chat is, or the number of rows. */
  function Position(chats: seq<Chat>, session: nat, jid: Jid): (r: nat)
    ensures r <= |chats|
    ensures r < |chats| ==> chats[r].session == session && chats[r].jid == jid
    ensures r == |chats| ==> forall i | 0 <= i < |chats| :: chats[i].session != session || chats[i].jid != jid
  {
    if chats == [] then 0
    else if chats[0].session == session && chats[0].jid == jid then 0
    else 1 + Position(chats[1..], session, jid)
  }

  function Without(chats: seq<Chat>, r: nat): (rest: seq<Chat>)
    requires r <= |chats|
    ensures |rest| == if r < |chats| then |chats| - 1 else |chats|
    ensures forall i | 0 <= i < |rest| :: rest[i] == chats[if i < r then i else i + 1]
  {
    if r < |chats| then chats[..r] + chats[r + 1..] else chats
  }

  function Step(s: State, a: Action): State {
    match a
    case Arrive(call) => s.(callers := s.callers + [Caller(call, Begun)])
    case Next(k) => if k < |s.callers| then Proceed(s, k) else s
    case Delete(session, jid) => s.(chats := Without(s.chats, Position(s.chats, session, jid)))
  }

  function Steps(s: State, actions: seq<Action>): State {
    if actions == [] then s else Step(Steps(s, actions[..|actions| - 1]), actions[|actions| - 1])
  }

  // ----- what every step keeps

  ghost predicate OnePerChat(chats: seq<Chat>) {
    forall i, j | 0 <= i < j < |chats| :: chats[i].session != chats[j].session || chats[i].jid != chats[j].jid
  }

  ghost predicate IdsAreOld(chats: seq<Chat>, nextId: nat) {
    && (forall i | 0 <= i < |chats| :: chats[i].id < nextId)
    && (forall i, j | 0 <= i < j < |chats| :: chats[i].id != chats[j].id)
  }

  /** What a caller's phase says about the table. */
  ghost predicate Placed(chats: seq<Chat>, c: Caller) {
    match c.phase
    case Begun => true
    case Missed => !Excluded(JidOf(c.call))
    case Conflicted => !Excluded(JidOf(c.call)) && Taken(chats, c.call)
    case Done(id) =>
      if Excluded(JidOf(c.call)) then id == None
      else Taken(chats, c.call) && id == Select(chats, c.call)
  }

  ghost predicate Sound(s: State) {
    OnePerChat(s.chats) && IdsAreOld(s.chats, s.nextId)
  }

  /** All callers on the chat of `call` are placed. */
  ghost predicate Inv(s: State, call: Call) {
    Sound(s) && forall k | 0 <= k < |s.callers| && Rivals(s.callers[k].call, call) :: Placed(s.chats, s.callers[k])
  }

  /** SELECT finds the only row there can be, if its organisation matches. */
  lemma {:induction false} SelectFinds(chats: seq<Chat>, call: Call, i: nat)
    requires OnePerChat(chats) && i < |chats| && IsFor(chats[i], call)
    ensures Select(chats, call) == if chats[i].org == call.org then Some(chats[i].id) else None
  {
    if i > 0 {
      SelectFinds(chats[1..], call, i - 1);
    } else if chats[0].org != call.org {
      SelectMisses(chats[1..], call);
    }
  }

  lemma {:induction false} SelectMisses(chats: seq<Chat>, call: Call)
    requires forall i | 0 <= i < |chats| :: !IsFor(chats[i], call)
    ensures Select(chats, call) == None
  {
    if chats != [] {
      SelectMisses(chats[1..], call);
    }
  }

  lemma {:induction false} FoundIsTaken(chats: seq<Chat>, call: Call)
    requires Select(chats, call).Some?
    ensures Taken(chats, call)
  {
    if IsFor(chats[0], call) && chats[0].org == call.org {
      assert IsFor(chats[0], call);
    } else {
      FoundIsTaken(chats[1..], call);
      var i :| 0 <= i < |chats[1..]| && IsFor(chats[1..][i], call);
      assert IsFor(chats[i + 1], call);
    }
  }

  /** A new row changes nothing for calls that already have theirs. */
  lemma RowsOnlyAdd(chats: seq<Chat>, row: Chat, call: Call)
    requires OnePerChat(chats) && OnePerChat(chats + [row]) && Taken(chats, call)
    ensures Taken(chats + [row], call) && Select(chats + [row], call) == Select(chats, call)
  {
    var i :| 0 <= i < |chats| && IsFor(chats[i], call);
    assert (chats + [row])[i] == chats[i];
    SelectFinds(chats, call, i);
    SelectFinds(chats + [row], call, i);
  }

  lemma PlacedStays(chats: seq<Chat>, row: Chat, c: Caller)
    requires OnePerChat(chats) && OnePerChat(chats + [row]) && Placed(chats, c)
    ensures Placed(chats + [row], c)
  {
    if Taken(chats, c.call) {
      RowsOnlyAdd(chats, row, c.call);
    }
  }

  lemma Appended(chats: seq<Chat>, nextId: nat, call: Call)
    requires OnePerChat(chats) && IdsAreOld(chats, nextId) && !Taken(chats, call)
    ensures OnePerChat(chats + [NewChat(nextId, call)]) && IdsAreOld(chats + [NewChat(nextId, call)], nextId + 1)
  {
    var row := NewChat(nextId, call);
    forall i | 0 <= i < |chats|
      ensures chats[i].session != row.session || chats[i].jid != row.jid
    {
      assert !IsFor(chats[i], call);
    }
  }

  /** Deleting the row of another chat changes nothing either. */
  lemma OthersMayGo(chats: seq<Chat>, r: nat, call: Call)
    requires OnePerChat(chats) && r < |chats| && !IsFor(chats[r], call) && Taken(chats, call)
    ensures Taken(Without(chats, r), call) && Select(Without(chats, r), call) == Select(chats, call)
  {
    var i :| 0 <= i < |chats| && IsFor(chats[i], call);
    var j := StillAt(chats, r, i);
    assert IsFor(Without(chats, r)[j], call);
    WithoutUnique(chats, r);
    SelectFinds(chats, call, i);
    SelectFinds(Without(chats, r), call, j);
  }

  lemma StillAt(chats: seq<Chat>, r: nat, i: nat) returns (j: nat)
    requires r < |chats| && i < |chats| && i != r
    ensures j < |Without(chats, r)| && Without(chats, r)[j] == chats[i]
  {
    j := if i < r then i else i - 1;
  }

  lemma WithoutUnique(chats: seq<Chat>, r: nat)
    requires OnePerChat(chats) && r <= |chats|
    ensures OnePerChat(Without(chats, r))
  {
  }

  lemma WithoutSound(chats: seq<Chat>, nextId: nat, r: nat)
    requires OnePerChat(chats) && IdsAreOld(chats, nextId) && r <= |chats|
    ensures OnePerChat(Without(chats, r)) && IdsAreOld(Without(chats, r), nextId)
  {
    WithoutUnique(chats, r);
  }

  lemma KeepsDelete(s: State, a: Action, call: Call)
    requires Inv(s, call) && a.Delete? && !(a.session == call.session && a.jid == JidOf(call))
    ensures Inv(Step(s, a), call)
  {
    var r := Position(s.chats, a.session, a.jid);
    WithoutSound(s.chats, s.nextId, r);
    forall k | 0 <= k < |s.callers| && Rivals(s.callers[k].call, call)
      ensures Placed(Without(s.chats, r), s.callers[k])
    {
      if r < |s.chats| && Taken(s.chats, s.callers[k].call) { OthersMayGo(s.chats, r, s.callers[k].call); }
    }
  }

  lemma Inserts(s: State, k: nat, call: Call)
    requires Inv(s, call) && k < |s.callers| && s.callers[k].phase.Missed? && !Taken(s.chats, s.callers[k].call)
    ensures Inv(Proceed(s, k), call)
  {
    var own := s.callers[k].call;
    var row := NewChat(s.nextId, own);
    var chats := s.chats + [row];
    Appended(s.chats, s.nextId, own);
    SelectFinds(chats, own, |s.chats|);
    assert IsFor(chats[|s.chats|], own);
    forall j | 0 <= j < |s.callers| && Rivals(s.callers[j].call, call)
      ensures Placed(chats, Proceed(s, k).callers[j])
    {
      assert Placed(s.chats, s.callers[j]);
      PlacedStays(s.chats, row, s.callers[j]);
    }
  }

  lemma StaysPlaced(s: State, k: nat)
    requires k < |s.callers| && Placed(s.chats, s.callers[k])
    requires s.callers[k].phase.Missed? ==> Taken(s.chats, s.callers[k].call)
    requires Select(s.chats, s.callers[k].call).Some? ==> Taken(s.chats, s.callers[k].call)
    ensures Placed(s.chats, Proceed(s, k).callers[k])
  {
  }

  lemma KeepsProceed(s: State, k: nat, call: Call)
    requires Inv(s, call) && k < |s.callers|
    ensures Inv(Proceed(s, k), call)
  {
    var c := s.callers[k];
    if c.phase.Missed? && !Taken(s.chats, c.call) {
      Inserts(s, k, call);
    } else {
      if Select(s.chats, c.call).Some? {
        FoundIsTaken(s.chats, c.call);
      }
      assert Proceed(s, k).chats == s.chats;
      forall j | 0 <= j < |s.callers| && Rivals(s.callers[j].call, call)
        ensures Placed(s.chats, Proceed(s, k).callers[j])
      {
        assert Placed(s.chats, s.callers[j]);
        if j == k { StaysPlaced(s, k); } else { assert Proceed(s, k).callers[j] == s.callers[j]; }
      }
    }
  }

  /** No deletion hits the chat of `call`. */
  ghost predicate Spares(actions: seq<Action>, call: Call) {
    forall i | 0 <= i < |actions| && actions[i].Delete? ::
      !(actions[i].session == call.session && actions[i].jid == JidOf(call))
  }

  lemma {:induction false} AlwaysPlaced(s: State, actions: seq<Action>, call: Call)
    requires Inv(s, call) && Spares(actions, call)
    ensures Inv(Steps(s, actions), call)
  {
    if actions != [] {
      var front, a := actions[..|actions| - 1], actions[|actions| - 1];
      AlwaysPlaced(s, front, call);
      var mid := Steps(s, front);
      match a
      case Arrive(_) =>
      case Next(k) => if k < |mid.callers| { KeepsProceed(mid, k, call); }
      case Delete(_, _) => KeepsDelete(mid, a, call);
    }
  }

  // ----- main results

  /** A table as the database holds it, and nobody calling yet. */
  ghost predicate Quiet(s: State) {
    Sound(s) && s.callers == []
  }

  /**
   * Whatever the interleaving: unless its own chat is deleted, a finished call on a chat that is not excluded finds
   * exactly one row, and returned its id -- unless that row belongs to another organization.
   */
  lemma RaceSafe(s: State, actions: seq<Action>, k: nat)
    requires Quiet(s) && k < |Steps(s, actions).callers| && Steps(s, actions).callers[k].phase.Done?
    requires Spares(actions, Steps(s, actions).callers[k].call)
    ensures var end := Steps(s, actions); var c := end.callers[k];
            if Excluded(JidOf(c.call)) then c.phase.id == None
            else exists i | 0 <= i < |end.chats| ::
                && IsFor(end.chats[i], c.call)
                && (forall j | 0 <= j < |end.chats| && IsFor(end.chats[j], c.call) :: j == i)
                && c.phase.id == if end.chats[i].org == c.call.org then Some(end.chats[i].id) else None
  {
    var end := Steps(s, actions);
    var c := end.callers[k];
    AlwaysPlaced(s, actions, c.call);
    assert Placed(end.chats, c);
    if !Excluded(JidOf(c.call)) {
      var i :| 0 <= i < |end.chats| && IsFor(end.chats[i], c.call);
      SelectFinds(end.chats, c.call, i);
    }
  }

  /** `owner` says which organization a session belongs to. */
  ghost predicate Owned(s: State, actions: seq<Action>, owner: nat -> nat) {
    && (forall i | 0 <= i < |s.chats| :: s.chats[i].org == owner(s.chats[i].session))
    && (forall i | 0 <= i < |s.callers| :: s.callers[i].call.org == owner(s.callers[i].call.session))
    && (forall i | 0 <= i < |actions| && actions[i].Arrive? :: actions[i].call.org == owner(actions[i].call.session))
  }

  lemma StepOwned(s: State, a: Action, owner: nat -> nat)
    requires Owned(s, [a], owner)
    ensures Owned(Step(s, a), [], owner)
  {
    assert [a][0] == a;
    match a
    case Arrive(_) =>
    case Next(k) => if k < |s.callers| { ProceedOwned(s, k, owner); }
    case Delete(_, _) =>
  }

  lemma ProceedOwned(s: State, k: nat, owner: nat -> nat)
    requires Owned(s, [], owner) && k < |s.callers|
    ensures Owned(Proceed(s, k), [], owner)
  {
    assert s.callers[k].call.org == owner(s.callers[k].call.session);
  }

  lemma {:induction false} StaysOwned(s: State, actions: seq<Action>, owner: nat -> nat)
    requires Owned(s, actions, owner)
    ensures Owned(Steps(s, actions), [], owner)
  {
    if actions != [] {
      StaysOwned(s, actions[..|actions| - 1], owner);
      StepOwned(Steps(s, actions[..|actions| - 1]), actions[|actions| - 1], owner);
    }
  }

  /** Where a session's rows and calls are all of its own organization, two finished calls on one chat agree on its
      id. */
  lemma CallersAgree(s: State, actions: seq<Action>, owner: nat -> nat, k: nat, m: nat)
    requires Quiet(s) && Owned(s, actions, owner)
    requires k < |Steps(s, actions).callers| && Steps(s, actions).callers[k].phase.Done?
    requires m < |Steps(s, actions).callers| && Steps(s, actions).callers[m].phase.Done?
    requires Spares(actions, Steps(s, actions).callers[k].call)
    requires Rivals(Steps(s, actions).callers[k].call, Steps(s, actions).callers[m].call)
    ensures Steps(s, actions).callers[k].phase.id == Steps(s, actions).callers[m].phase.id
    ensures Steps(s, actions).callers[k].phase.id.Some? <==> !Excluded(JidOf(Steps(s, actions).callers[k].call))
  {
    RaceSafe(s, actions, k);
    RaceSafe(s, actions, m);
    StaysOwned(s, actions, owner);
  }

  // ----- what deletions do

  /** Step j is the second SELECT of caller k, and there is no row for its chat any more. */
  ghost predicate Loses(s: State, actions: seq<Action>, k: nat, j: nat) {
    && j < |actions| && actions[j] == Next(k)
    && var mid := Steps(s, actions[..j]);
       k < |mid.callers| && mid.callers[k].phase.Conflicted? && !Taken(mid.chats, mid.callers[k].call)
  }

  lemma StepCaller(s: State, a: Action, k: nat)
    requires k < |s.callers|
    ensures k < |Step(s, a).callers| && Step(s, a).callers[k].call == s.callers[k].call
    ensures a != Next(k) || s.callers[k].phase.Done? ==> Step(s, a).callers[k] == s.callers[k]
    ensures a == Next(k) && s.callers[k].phase.Conflicted? ==>
              Step(s, a).callers[k].phase == Done(Select(s.chats, s.callers[k].call))
  {
  }

  /** A call whose chat is there with its organization has the id after its first command, and no later deletion takes
      it back. */
  lemma {:induction false} KnownChat(s: State, later: seq<Action>, k: nat, i: nat)
    requires Sound(s) && k < |s.callers| && s.callers[k].phase.Begun? && !Excluded(JidOf(s.callers[k].call))
    requires i < |s.chats| && IsFor(s.chats[i], s.callers[k].call) && s.chats[i].org == s.callers[k].call.org
    ensures k < |Steps(Step(s, Next(k)), later).callers|
    ensures Steps(Step(s, Next(k)), later).callers[k].phase == Done(Some(s.chats[i].id))
  {
    if later == [] {
      SelectFinds(s.chats, s.callers[k].call, i);
    } else {
      KnownChat(s, later[..|later| - 1], k, i);
      StepCaller(Steps(Step(s, Next(k)), later[..|later| - 1]), later[|later| - 1], k);
    }
  }

  lemma {:induction false} LosersGetNothing(s: State, actions: seq<Action>, k: nat, j: nat)
    requires Loses(s, actions, k, j)
    ensures k < |Steps(s, actions).callers| && Steps(s, actions).callers[k].phase == Done(None)
  {
    var front, a := actions[..|actions| - 1], actions[|actions| - 1];
    var mid := Steps(s, front);
    if j < |front| {
      assert front[..j] == actions[..j];
      LosersGetNothing(s, front, k, j);
    } else {
      assert actions[..j] == front;
      SelectMisses(mid.chats, mid.callers[k].call);
    }
    StepCaller(mid, a, k);
  }

  lemma {:induction false} StaysSound(s: State, actions: seq<Action>)
    requires Sound(s)
    ensures Sound(Steps(s, actions))
  {
    if actions != [] {
      var front, a := actions[..|actions| - 1], actions[|actions| - 1];
      StaysSound(s, front);
      var mid := Steps(s, front);
      if a.Delete? {
        WithoutSound(mid.chats, mid.nextId, Position(mid.chats, a.session, a.jid));
      } else if a.Next? && a.caller < |mid.callers| && mid.callers[a.caller].phase.Missed?
                && !Taken(mid.chats, mid.callers[a.caller].call) {
        Appended(mid.chats, mid.nextId, mid.callers[a.caller].call);
      }
    }
  }

  /** With a row of the call's organization there, or none at all, SELECT misses only when there is none. */
  lemma MissesOnlyNothing(s: State, call: Call, owner: nat -> nat)
    requires Sound(s) && Owned(s, [], owner) && call.org == owner(call.session)
    ensures Select(s.chats, call) == None <==> !Taken(s.chats, call)
  {
    if Taken(s.chats, call) {
      var i :| 0 <= i < |s.chats| && IsFor(s.chats[i], call);
      SelectFinds(s.chats, call, i);
    } else {
      SelectMisses(s.chats, call);
    }
  }

  lemma {:induction false} OnlyLosersGetNothing(s: State, actions: seq<Action>, owner: nat -> nat, k: nat)
    requires Quiet(s) && Owned(s, actions, owner)
    requires k < |Steps(s, actions).callers| && Steps(s, actions).callers[k].phase == Done(None)
    requires !Excluded(JidOf(Steps(s, actions).callers[k].call))
    ensures exists j: nat :: Loses(s, actions, k, j)
  {
    var front, a := actions[..|actions| - 1], actions[|actions| - 1];
    var mid := Steps(s, front);
    StaysSound(s, front);
    StaysOwned(s, front, owner);
    StepCaller(mid, a, k);
    if mid.callers[k].phase.Done? {
      OnlyLosersGetNothing(s, front, owner, k);
      var j: nat :| Loses(s, front, k, j);
      assert front[..j] == actions[..j];
      assert Loses(s, actions, k, j);
    } else {
      MissesOnlyNothing(mid, mid.callers[k].call, owner);
      assert Loses(s, actions, k, |front|);
    }
  }

  /** With deletions anywhere in the run: a finished call of a session's own organization, on a chat that is not
      excluded, has an id exactly if it did not come, after a conflict, to a second SELECT with no row for its chat. */
  lemma GetsAnIdIff(s: State, actions: seq<Action>, owner: nat -> nat, k: nat)
    requires Quiet(s) && Owned(s, actions, owner)
    requires k < |Steps(s, actions).callers| && Steps(s, actions).callers[k].phase.Done?
    requires !Excluded(JidOf(Steps(s, actions).callers[k].call))
    ensures Steps(s, actions).callers[k].phase.id.Some? <==> !exists j: nat :: Loses(s, actions, k, j)
  {
    if Steps(s, actions).callers[k].phase.id.None? {
      OnlyLosersGetNothing(s, actions, owner, k);
    }
    if j: nat :| Loses(s, actions, k, j) {
      LosersGetNothing(s, actions, k, j);
    }
  }

  /** A row deleted between the conflict and the second SELECT leaves its caller without an id. */
  lemma DeletionLosesTheRace(s: State, i: nat, k: nat)
    requires Sound(s) && k < |s.callers| && s.callers[k].phase.Conflicted?
    requires i < |s.chats| && IsFor(s.chats[i], s.callers[k].call)
    ensures var row := s.chats[i];
            Step(Step(s, Delete(row.session, row.jid)), Next(k)).callers[k].phase == Done(None)
  {
    var call := s.callers[k].call;
    assert Position(s.chats, call.session, JidOf(call)) == i;
    SelectMisses(Without(s.chats, i), call);
  }

  // ----- nothing else is added

  /** Every row is an old one or the chat some caller asked for. */
  lemma {:induction false} OnlyAsked(s: State, actions: seq<Action>, i: nat)
    requires i < |Steps(s, actions).chats|
    requires forall k | 0 <= k < |s.callers| :: s.callers[k].phase.Begun?
    ensures var end := Steps(s, actions);
            end.chats[i] in s.chats || exists k | 0 <= k < |end.callers| :: Asked(end.chats[i], end.callers[k].call)
  {
    if actions != [] {
      var front, a := actions[..|actions| - 1], actions[|actions| - 1];
      var mid := Steps(s, front);
      var row := Steps(s, actions).chats[i];
      if m :| 0 <= m < |mid.chats| && mid.chats[m] == row {
        OnlyAsked(s, front, m);
        if row !in s.chats {
          var k :| 0 <= k < |mid.callers| && Asked(row, mid.callers[k].call);
          StepCaller(mid, a, k);
          assert Asked(row, Steps(s, actions).callers[k].call);
        }
      } else {
        assert a.Next? && row == NewChat(mid.nextId, mid.callers[a.caller].call);
        AllWelcome(s, front, a.caller);
        StepCaller(mid, a, a.caller);
        assert Asked(row, Steps(s, actions).callers[a.caller].call);
      }
    }
  }

  predicate Asked(row: Chat, call: Call) {
    && !Excluded(JidOf(call))
    && row.org == call.org && row.session == call.session && row.jid == NormalizeJid(call.resolved)
    && (row.group <==> EndsWith(row.jid, "@g.us"))
  }

  /** Whoever is past its first SELECT asks for a chat that is not excluded. */
  predicate Welcome(c: Caller) {
    c.phase.Missed? || c.phase.Conflicted? ==> !Excluded(JidOf(c.call))
  }

  lemma {:induction false} AllWelcome(s: State, actions: seq<Action>, k: nat)
    requires forall j | 0 <= j < |s.callers| :: s.callers[j].phase.Begun?
    requires k < |Steps(s, actions).callers|
    ensures Welcome(Steps(s, actions).callers[k])
  {
    if actions != [] {
      var front, a := actions[..|actions| - 1], actions[|actions| - 1];
      if k < |Steps(s, front).callers| {
        AllWelcome(s, front, k);
        StepCaller(Steps(s, front), a, k);
      }
    }
  }

  /** A call needs three commands at most. */
  function Left(phase: Phase): nat {
    match phase
    case Begun => 3
    case Missed => 2
    case Conflicted => 1
    case Done(_) => 0
  }

  lemma CallsEnd(s: State, k: nat)
    requires k < |s.callers|
    ensures Left(Proceed(s, k).callers[k].phase) < Left(s.callers[k].phase) || s.callers[k].phase.Done?
    ensures forall j | 0 <= j < |s.callers| && j != k :: Proceed(s, k).callers[j] == s.callers[j]
  {
  }

  lemma SelectsTheRow(chats: seq<Chat>, call: Call)
    requires OnePerChat(chats) && Taken(chats, call)
    ensures exists i | 0 <= i < |chats| ::
              && IsFor(chats[i], call)
              && Select(chats, call) == if chats[i].org == call.org then Some(chats[i].id) else None
  {
    var i :| 0 <= i < |chats| && IsFor(chats[i], call);
    SelectFinds(chats, call, i);
  }

  // ----- one call as the service runs it

  class ChatService {
    var chats: seq<Chat>
    var nextId: nat

    ghost predicate Valid()
      reads this
    {
      OnePerChat(chats) && IdsAreOld(chats, nextId)
    }

    constructor ()
      ensures Valid() && chats == []
    {
      chats, nextId := [], 0;
    }

    /** INSERT ... ON CONFLICT (session, JID) DO NOTHING RETURNING id */
    method InsertIfAbsent(call: Call) returns (created: Option<nat>)
      requires Valid()
      modifies this
      ensures Valid() && old(chats) <= chats && Taken(chats, call)
      ensures Taken(old(chats), call) ==> created == None && chats == old(chats)
      ensures !Taken(old(chats), call) ==>
                created == Some(old(nextId)) && chats == old(chats) + [NewChat(old(nextId), call)]
    {
      if Taken(chats, call) {
        created := None;
      } else {
        Appended(chats, nextId, call);
        created := Some(nextId);
        chats, nextId := chats + [NewChat(nextId, call)], nextId + 1;
        assert IsFor(chats[|chats| - 1], call);
      }
    }

    /** What other callers do between two commands of this one. */
    method Others()
      requires Valid()
      modifies this
      ensures Valid() && old(chats) <= chats
    {
      var calls: seq<Call> :| |calls| >= 0;
      for i := 0 to |calls|
        invariant Valid() && old(chats) <= chats
      {
        var _ := InsertIfAbsent(calls[i]);
      }
    }

    method EnsureChatExists(call: Call) returns (id: Option<nat>)
      requires Valid()
      modifies this
      ensures Valid() && old(chats) <= chats
      ensures Excluded(JidOf(call)) ==> id == None && chats == old(chats)
      ensures !Excluded(JidOf(call)) ==> exists i | 0 <= i < |chats| ::
                && IsFor(chats[i], call)
                && id == if chats[i].org == call.org then Some(chats[i].id) else None
    {
      if Excluded(JidOf(call)) { return None; }
      Others();
      id := Select(chats, call);
      if id.Some? {
        FoundIsTaken(chats, call);
        SelectsTheRow(chats, call);
        return;
      }
      Others();
      id := InsertIfAbsent(call);
      if id.Some? {
        assert IsFor(chats[|chats| - 1], call);
        return;
      }
      ghost var i :| 0 <= i < |chats| && IsFor(chats[i], call);
      Others();
      assert IsFor(chats[i], call);
      id := Select(chats, call);
      SelectsTheRow(chats, call);
    }
  }
}
