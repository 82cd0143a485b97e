/** The table from LID JIDs to phone JIDs: a Redis hash backed by contact metadata. */
module LidMapping {
  import opened Jids
  import opened Options

  /** One session: the hash, and for each contact JID the `lid` entry of its metadata. */
  datatype State = State(hash: map<Jid, Jid>, contacts: map<Jid, Option<Jid>>)

  /** String.prototype.replace with a string pattern: the first occurrence. */
  function ReplaceFirst(s: string, t: string, u: string): string
    requires t != ""
  {
    if |s| < |t| then s
    else if s[..|t|] == t then u + s[|t|..]
    else [s[0]] + ReplaceFirst(s[1..], t, u)
  }

  function CanonicalLid(lid: Jid): Jid {
    var x := NormalizeJid(Trim(lid));
    if '@' in x then x else x + LID
  }

  function CanonicalPhone(phone: Jid): Jid {
    var x := NormalizeJid(Trim(phone));
    var y := if EndsWith(x, LEGACY) then ReplaceFirst(x, LEGACY, PHONE) else x;
    if '@' in y then y else y + PHONE
  }

  predicate Accepted(l: Jid, p: Jid) {
    l != p && EndsWith(l, LID) && EndsWith(p, PHONE)
  }

  function Stored(s: State, l: Jid, p: Jid): State {
    if !Accepted(l, p) then s
    else State(s.hash[l := p], if p in s.contacts then s.contacts[p := Some(l)] else s.contacts)
  }

  function Saved(s: State, lid: Jid, phone: Jid): State {
    if lid == "" || phone == "" then s else Stored(s, CanonicalLid(lid), CanonicalPhone(phone))
  }

  /** What a lookup may answer, and the state it leaves: of several contacts with the same lid any may be found. */
  ghost predicate Resolves(s: State, jid: Jid, t: State, r: Jid) {
    var key := NormalizeJid(Trim(jid));
    if !EndsWith(key, LID) then t == s && r == jid
    else if key in s.hash then t == s && r == s.hash[key]
    else if exists w :: w in s.contacts && s.contacts[w] == Some(key) then
      r in s.contacts && s.contacts[r] == Some(key) && t == s.(hash := s.hash[key := r])
    else t == s && r == jid
  }

  class LidTable {
    var hash: map<Jid, Jid>
    var contacts: map<Jid, Option<Jid>>

    ghost function Now(): State
      reads this
    {
      State(hash, contacts)
    }

    method SaveLidMapping(lid: Jid, phone: Jid)
      modifies this
      ensures Now() == Saved(old(Now()), lid, phone)
      ensures Canonical(old(Now())) ==> Canonical(Now())
    {
      if lid == "" || phone == "" { return; }
      var l, p := Canonicalize(lid, phone);
      StoreMapping(l, p);
    }

    method StoreMapping(l: Jid, p: Jid)
      modifies this
      ensures Now() == Stored(old(Now()), l, p)
      ensures Canonical(old(Now())) ==> Canonical(Now())
    {
      if l == p { return; }
      if EndsWith(l, LID) && EndsWith(p, PHONE) {
        hash := hash[l := p];
        if p in contacts && contacts[p] != Some(l) { contacts := contacts[p := Some(l)]; }
        assert contacts == Stored(old(Now()), l, p).contacts;
      }
    }

    static method Canonicalize(lid: Jid, phone: Jid) returns (l: Jid, p: Jid)
      ensures l == CanonicalLid(lid) && p == CanonicalPhone(phone)
    {
      l, p := NormalizeJid(Trim(lid)), NormalizeJid(Trim(phone));
      if EndsWith(p, LEGACY) { p := ReplaceFirst(p, LEGACY, PHONE); }
      if '@' !in l { l := l + LID; }
      if '@' !in p { p := p + PHONE; }
    }

    method ResolveLidJid(jid: Jid) returns (r: Jid)
      modifies this
      ensures Resolves(old(Now()), jid, Now(), r)
      ensures Canonical(old(Now())) ==> Canonical(Now())
    {
      var key := NormalizeJid(Trim(jid));
      if jid == "" || !EndsWith(key, LID) { return jid; }
      if key in hash { return hash[key]; }
      if w :| w in contacts && contacts[w] == Some(key) {
        hash := hash[key := w];
        return w;
      }
      return jid;
    }
  }

  // ----- canonical states

  /** Keys end in @lid and values in @s.whatsapp.net, in the hash and in the contacts behind it. */
  ghost predicate Canonical(s: State) {
    && (forall k | k in s.hash :: EndsWith(k, LID) && EndsWith(s.hash[k], PHONE))
    && (forall w | w in s.contacts && s.contacts[w].Some? :: EndsWith(w, PHONE) && EndsWith(s.contacts[w].value, LID))
  }

  /** Steps of a session: saves, lookups, and contacts appearing without a lid or going away. */
  datatype Action = Save(lid: Jid, phone: Jid) | Resolve(jid: Jid) | Appear(jid: Jid) | Vanish(jid: Jid)

  ghost predicate Next(s: State, a: Action, t: State) {
    match a
    case Save(lid, phone) => t == Saved(s, lid, phone)
    case Resolve(jid) => exists r :: Resolves(s, jid, t, r)
    case Appear(jid) => t == if jid in s.contacts then s else s.(contacts := s.contacts[jid := None])
    case Vanish(jid) => t == s.(contacts := s.contacts - {jid})
  }

  /** A run of a new session. */
  ghost predicate Run(states: seq<State>, acts: seq<Action>) {
    && |states| == |acts| + 1
    && states[0] == State(map[], map[])
    && forall k | 0 <= k < |acts| :: Next(states[k], acts[k], states[k + 1])
  }

  lemma StoreKeeps(s: State, l: Jid, p: Jid)
    requires Canonical(s)
    ensures Canonical(Stored(s, l, p))
  {
  }

  lemma NextKeeps(s: State, a: Action, t: State)
    requires Canonical(s) && Next(s, a, t)
    ensures Canonical(t)
  {
    match a
    case Save(lid, phone) => StoreKeeps(s, CanonicalLid(lid), CanonicalPhone(phone));
    case _ =>
  }

  lemma {:induction false} AlwaysCanonical(states: seq<State>, acts: seq<Action>, k: nat)
    requires Run(states, acts) && k < |states|
    ensures Canonical(states[k])
  {
    if k > 0 {
      AlwaysCanonical(states, acts, k - 1);
      NextKeeps(states[k - 1], acts[k - 1], states[k - 1 + 1]);
    }
  }

  lemma DifferentServers(x: Jid)
    ensures !(EndsWith(x, LID) && EndsWith(x, PHONE))
  {
    if EndsWith(x, LID) { LastOf(x, LID); }
    if EndsWith(x, PHONE) { LastOf(x, PHONE); }
  }

  /** No chains and no cycles: nothing a mapping leads to is itself mapped. */
  lemma NoChains(states: seq<State>, acts: seq<Action>, k: nat, lid: Jid)
    requires Run(states, acts) && k < |states| && lid in states[k].hash
    ensures states[k].hash[lid] !in states[k].hash
  {
    AlwaysCanonical(states, acts, k);
    DifferentServers(states[k].hash[lid]);
  }

  /** A phone JID, once normalized, resolves to itself. */
  lemma PhoneIsFixed(s: State, t: State, x: Jid, r: Jid)
    requires EndsWith(x, PHONE) && Resolves(s, NormalizeJid(x), t, r)
    ensures t == s && r == NormalizeJid(x)
  {
    var y := NormalizeJid(x);
    NormalizeKeepsSuffix(x, PHONE);
    TrimKeepsSuffix(y, PHONE);
    NormalizeKeepsSuffix(Trim(y), PHONE);
    DifferentServers(NormalizeJid(Trim(y)));
  }

  /** In every reachable state canonicalizing a JID twice gives what canonicalizing it once gives. */
  lemma ResolveIsIdempotent(states: seq<State>, acts: seq<Action>, k: nat, x: Jid, t: State, r: Jid, u: State, q: Jid)
    requires Run(states, acts) && k < |states|
    requires Resolves(states[k], x, t, r) && Resolves(t, NormalizeJid(r), u, q)
    ensures NormalizeJid(q) == NormalizeJid(r) && u == t
  {
    AlwaysCanonical(states, acts, k);
    var key := NormalizeJid(Trim(x));
    TrimNormalize(r);
    if EndsWith(r, PHONE) && r != x {
      PhoneIsFixed(t, u, r, q);
    } else {
      TrimNormalize(x);
    }
  }

  // ----- saving and finding again

  /** What a save stores is found under every spelling of the LID. */
  lemma SavedIsFound(s: State, lid: Jid, phone: Jid, x: Jid, t: State, r: Jid)
    requires lid != "" && phone != "" && Accepted(CanonicalLid(lid), CanonicalPhone(phone))
    requires NormalizeJid(Trim(x)) == CanonicalLid(lid) && Resolves(Saved(s, lid, phone), x, t, r)
    ensures r == CanonicalPhone(phone) && t == Saved(s, lid, phone)
  {
  }

  /** If the phone has a contact row and no other row claims the LID, the mapping survives the loss of the hash and
      the next lookup restores it. */
  lemma SurvivesLossOfHash(s: State, lid: Jid, phone: Jid, x: Jid, t: State, r: Jid)
    requires lid != "" && phone != "" && Accepted(CanonicalLid(lid), CanonicalPhone(phone))
    requires CanonicalPhone(phone) in s.contacts
    requires forall w | w in s.contacts && s.contacts[w] == Some(CanonicalLid(lid)) :: w == CanonicalPhone(phone)
    requires NormalizeJid(Trim(x)) == CanonicalLid(lid) && Resolves(Saved(s, lid, phone).(hash := map[]), x, t, r)
    ensures r == CanonicalPhone(phone) && t.hash == map[CanonicalLid(lid) := CanonicalPhone(phone)]
  {
    var u := Saved(s, lid, phone);
    assert u.contacts[CanonicalPhone(phone)] == Some(CanonicalLid(lid));
  }

  /** Saving one LID leaves what the hash says of every other, and every contact but the phone's. */
  lemma OthersStay(s: State, lid: Jid, phone: Jid, other: Jid)
    requires other != CanonicalLid(lid)
    ensures other in Saved(s, lid, phone).hash <==> other in s.hash
    ensures other in s.hash ==> Saved(s, lid, phone).hash[other] == s.hash[other]
    ensures Saved(s, lid, phone).contacts.Keys == s.contacts.Keys
    ensures forall w | w in s.contacts && w != CanonicalPhone(phone) ::
              Saved(s, lid, phone).contacts[w] == s.contacts[w]
  {
    StoringLeaves(s, CanonicalLid(lid), CanonicalPhone(phone), other);
  }

  lemma StoringLeaves(s: State, l: Jid, p: Jid, other: Jid)
    requires other != l
    ensures var t := Stored(s, l, p);
            && (other in t.hash <==> other in s.hash)
            && (other in s.hash ==> t.hash[other] == s.hash[other])
            && t.contacts.Keys == s.contacts.Keys
            && forall w | w in s.contacts && w != p :: t.contacts[w] == s.contacts[w]
  {
  }

  /** What no mapping is known for is answered unchanged, and nothing is written. */
  lemma UnmappedStays(s: State, x: Jid, t: State, r: Jid)
    requires Resolves(s, x, t, r)
    requires !EndsWith(NormalizeJid(Trim(x)), LID)
             || (NormalizeJid(Trim(x)) !in s.hash
                 && forall w | w in s.contacts :: s.contacts[w] != Some(NormalizeJid(Trim(x))))
    ensures r == x && t == s
  {
  }

  // ----- the spellings of one user

  /** A user part: no separator, and no space for trimming to take. */
  predicate UserPart(u: string) {
    u != "" && '@' !in u && ':' !in u && !IsSpace(u[0]) && !IsSpace(u[|u| - 1])
  }

  lemma TrimsToItself(s: string)
    requires s != "" && !IsSpace(s[0]) && !IsSpace(s[|s| - 1])
    ensures Trim(s) == s
  {
  }

  lemma {:induction false} ReplacesAtEnd(u: string, t: string, v: string)
    requires t != "" && t[0] !in u
    ensures ReplaceFirst(u + t, t, v) == u + v
  {
    if u == "" {
      assert u + t == t && t[|t|..] == "";
      assert t[..|t|] == t;
    } else {
      assert (u + t)[0] == u[0] != t[0];
      assert (u + t)[..|t|][0] == u[0];
      assert (u + t)[1..] == u[1..] + t;
      ReplacesAtEnd(u[1..], t, v);
      assert [u[0]] + (u[1..] + v) == u + v;
    }
  }

  /** Every way to write a user's LID comes to user@lid: bare, with the server, with a device. */
  lemma LidSpellings(u: string, device: string)
    requires UserPart(u) && '@' !in device
    ensures CanonicalLid(u) == CanonicalLid(u + "@lid") == CanonicalLid(u + ":" + device + "@lid") == u + "@lid"
  {
    TrimsToItself(u);
    TrimsToItself(u + "@lid");
    TrimsToItself(u + ":" + device + "@lid");
    assert u + "@lid" == u + "@" + "lid" && u + ":" + device + "@lid" == u + ":" + device + "@" + "lid";
    assert '@' in u + "@lid" by { assert (u + "@lid")[|u|] == '@'; }
    DevicesNormalizeAlike(u, device, "lid");
    BareStays(u);
  }

  lemma BareStays(u: string)
    requires '@' !in u
    ensures NormalizeJid(u) == u
  {
  }

  lemma PhoneBare(u: string)
    requires UserPart(u)
    ensures CanonicalPhone(u) == u + "@s.whatsapp.net"
  {
    TrimsToItself(u);
    BareStays(u);
    NoServerNoSuffix(u);
  }

  lemma PhoneFull(u: string)
    requires UserPart(u)
    ensures CanonicalPhone(u + "@s.whatsapp.net") == u + "@s.whatsapp.net"
  {
    var full := u + "@s.whatsapp.net";
    TrimsToItself(full);
    assert full == u + "@" + "s.whatsapp.net" && full[|u|] == '@';
    NormalForm(u, "s.whatsapp.net");
    LegacyIsOther(full);
  }

  lemma NoServerNoSuffix(u: string)
    requires '@' !in u
    ensures !EndsWith(u, "@c.us")
  {
    if EndsWith(u, "@c.us") {
      SuffixChar(u, "@c.us");
      assert false;
    }
  }

  lemma SuffixChar(s: string, t: string)
    requires EndsWith(s, t) && t != ""
    ensures t[0] in s
  {
    assert s[|s| - |t|..][0] == s[|s| - |t|];
  }

  lemma LegacyIsOther(s: string)
    requires s != "" && s[|s| - 1] == 't'
    ensures !EndsWith(s, "@c.us")
  {
    if EndsWith(s, "@c.us") {
      LastOf(s, "@c.us");
      assert false;
    }
  }

  lemma PhoneLegacy(u: string)
    requires UserPart(u)
    ensures CanonicalPhone(u + "@c.us") == u + "@s.whatsapp.net"
  {
    var full := u + "@c.us";
    TrimsToItself(full);
    assert full == u + "@" + "c.us";
    NormalForm(u, "c.us");
    assert full[|full| - 5..] == "@c.us";
    ReplacesAtEnd(u, LEGACY, PHONE);
    assert (u + PHONE)[|u|] == '@';
  }

  lemma DevicePhone(u: string, device: string, suffix: string)
    requires UserPart(u) && '@' !in device && |suffix| > 1 && suffix[0] == '@' && !IsSpace(suffix[|suffix| - 1])
    ensures CanonicalPhone(u + ":" + device + suffix) == CanonicalPhone(u + suffix)
  {
    DeviceKeySuffix(u, device, suffix);
    SamePhone(u + ":" + device + suffix, u + suffix);
  }

  lemma DeviceKeySuffix(u: string, device: string, suffix: string)
    requires UserPart(u) && '@' !in device && |suffix| > 1 && suffix[0] == '@' && !IsSpace(suffix[|suffix| - 1])
    ensures NormalizeJid(Trim(u + ":" + device + suffix)) == NormalizeJid(Trim(u + suffix))
  {
    Reassociate(u, suffix);
    Reassociate(u + ":" + device, suffix);
    DeviceKey(u, device, suffix[1..]);
  }

  lemma Reassociate(a: string, suffix: string)
    requires suffix != "" && suffix[0] == '@'
    ensures a + "@" + suffix[1..] == a + suffix
  {
  }

  lemma SamePhone(x: Jid, y: Jid)
    requires NormalizeJid(Trim(x)) == NormalizeJid(Trim(y))
    ensures CanonicalPhone(x) == CanonicalPhone(y)
  {
  }

  lemma DeviceKey(u: string, device: string, server: string)
    requires UserPart(u) && '@' !in device && server != "" && !IsSpace(server[|server| - 1])
    ensures NormalizeJid(Trim(u + ":" + device + "@" + server)) == NormalizeJid(Trim(u + "@" + server))
         == u + "@" + server
  {
    TrimsToItself(u + ":" + device + "@" + server);
    TrimsToItself(u + "@" + server);
    DevicesNormalizeAlike(u, device, server);
  }

  /** Every way to write a user's phone comes to user@s.whatsapp.net: bare, with either server, with a device. */
  lemma PhoneSpellings(u: string, device: string, x: Jid)
    requires UserPart(u) && '@' !in device
    requires || x == u || x == u + "@s.whatsapp.net" || x == u + "@c.us"
             || x == u + ":" + device + "@s.whatsapp.net" || x == u + ":" + device + "@c.us"
    ensures CanonicalPhone(x) == u + "@s.whatsapp.net"
  {
    if x == u {
      PhoneBare(u);
    } else if x == u + "@s.whatsapp.net" {
      PhoneFull(u);
    } else if x == u + "@c.us" {
      PhoneLegacy(u);
    } else {
      PhoneWithDevice(u, device, x);
    }
  }

  lemma PhoneWithDevice(u: string, device: string, x: Jid)
    requires UserPart(u) && '@' !in device
    requires x == u + ":" + device + "@s.whatsapp.net" || x == u + ":" + device + "@c.us"
    ensures CanonicalPhone(x) == u + "@s.whatsapp.net"
  {
    if x == u + ":" + device + "@s.whatsapp.net" {
      PhoneFull(u);
      DevicePhone(u, device, "@s.whatsapp.net");
    } else {
      PhoneLegacy(u);
      DevicePhone(u, device, "@c.us");
    }
  }

  /** A LID and a phone saved in any of these spellings: the LID, with or without a device, resolves to the phone. */
  lemma UsersAreFound(s: State, l: string, p: string, device: string, lid: Jid, phone: Jid, x: Jid, t: State, r: Jid)
    requires UserPart(l) && UserPart(p) && '@' !in device
    requires lid in {l, l + "@lid", l + ":" + device + "@lid"}
    requires phone in {p, p + "@s.whatsapp.net", p + "@c.us", p + ":" + device + "@s.whatsapp.net",
                       p + ":" + device + "@c.us"}
    requires x in {l + "@lid", l + ":" + device + "@lid"} && Resolves(Saved(s, lid, phone), x, t, r)
    ensures r == p + "@s.whatsapp.net" && t == Saved(s, lid, phone)
  {
    LidSpellings(l, device);
    PhoneSpellings(p, device, phone);
    AcceptsUsers(l, p);
    LidKeys(l, device);
    SavedIsFound(s, lid, phone, x, t, r);
  }

  lemma LidKeys(l: string, device: string)
    requires UserPart(l) && '@' !in device
    ensures NormalizeJid(Trim(l + "@lid")) == NormalizeJid(Trim(l + ":" + device + "@lid")) == l + "@lid"
  {
    assert l + ":" + device + "@lid" == l + ":" + device + "@" + "lid" && l + "@lid" == l + "@" + "lid";
    DeviceKey(l, device, "lid");
  }

  lemma AcceptsUsers(l: string, p: string)
    ensures Accepted(l + "@lid", p + "@s.whatsapp.net")
  {
    var a, b := l + "@lid", p + "@s.whatsapp.net";
    assert a[|a| - 4..] == "@lid" && b[|b| - 15..] == "@s.whatsapp.net";
    assert a[|a| - 1] == 'd' && b[|b| - 1] == 't';
  }
}
