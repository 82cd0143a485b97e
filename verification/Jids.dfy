/** WhatsApp JIDs as strings: user part, '@', server part; a device suffix ":XX" may follow the user. */
module Jids {
  type Jid = string

  const LID := "@lid"
  const PHONE := "@s.whatsapp.net"
  const LEGACY := "@c.us"

  /** What String.prototype.trim strips. */
  predicate IsSpace(c: char) {
    c in " \t\n\r" || c as int in {0x0B, 0x0C, 0xA0, 0x1680, 0x2028, 0x2029, 0x202F, 0x205F, 0x3000, 0xFEFF}
    || 0x2000 <= c as int <= 0x200A
  }

  function TrimLeft(s: string): string {
    if s != "" && IsSpace(s[0]) then TrimLeft(s[1..]) else s
  }

  function TrimRight(s: string): string {
    if s != "" && IsSpace(s[|s| - 1]) then TrimRight(s[..|s| - 1]) else s
  }

  function Trim(s: string): string {
    TrimRight(TrimLeft(s))
  }

  function IndexOf(s: string, c: char): (k: int)
    ensures -1 <= k < |s|
    ensures k == -1 ==> c !in s
    ensures k >= 0 ==> s[k] == c && c !in s[..k]
  {
    if s == "" then -1
    else if s[0] == c then 0
    else
      var k := IndexOf(s[1..], c);
      if k == -1 then -1 else
        assert s[..k + 1] == [s[0]] + s[1..][..k];
        k + 1
  }

  predicate EndsWith(s: string, t: string) {
    |t| <= |s| && s[|s| - |t|..] == t
  }

  function NormalizeJid(jid: Jid): Jid {
    var at := IndexOf(jid, '@');
    if at == -1 then jid
    else
      var colon := IndexOf(jid[..at], ':');
      if colon == -1 then jid else jid[..colon] + jid[at..]
  }

  // ----- normalization and trimming

  lemma NotBefore(s: string, c: char, k: nat)
    requires k <= |s| && c !in s[..k]
    ensures forall j | 0 <= j < k :: s[j] != c
  {
    forall j | 0 <= j < k
      ensures s[j] != c
    {
      assert s[..k][j] == s[j];
    }
  }

  lemma IndexOfUnique(s: string, c: char, k: nat)
    requires k < |s| && s[k] == c && c !in s[..k]
    ensures IndexOf(s, c) == k
  {
    NotBefore(s, c, k);
    if IndexOf(s, c) >= 0 { NotBefore(s, c, IndexOf(s, c)); }
  }

  lemma LastOf(s: string, t: string)
    requires EndsWith(s, t) && t != ""
    ensures s[|s| - 1] == t[|t| - 1]
  {
    assert s[|s| - |t|..][|t| - 1] == s[|s| - 1];
  }

  /** A JID without device suffix is left alone. */
  lemma NormalForm(user: string, server: string)
    requires '@' !in user && ':' !in user
    ensures NormalizeJid(user + "@" + server) == user + "@" + server
  {
    var s := user + "@" + server;
    assert s[..|user|] == user;
    IndexOfUnique(s, '@', |user|);
  }

  lemma NormalizesTo(user: string, device: string, server: string)
    requires '@' !in user && ':' !in user && '@' !in device
    ensures NormalizeJid(user + ":" + device + "@" + server) == user + "@" + server
  {
    var head := user + ":" + device;
    var s := head + "@" + server;
    assert s == user + ":" + device + "@" + server;
    assert s[..|head|] == head && '@' !in head;
    IndexOfUnique(s, '@', |head|);
    assert head[..|user|] == user;
    IndexOfUnique(head, ':', |user|);
    assert s[..|user|] == user && s[|head|..] == "@" + server;
  }

  lemma NoneInPart(s: string, c: char, from: nat, end: nat)
    requires c !in s && from <= end <= |s|
    ensures c !in s[from..end]
  {
    forall k | 0 <= k < end - from
      ensures s[from..end][k] != c
    {
      assert s[from..end][k] == s[from + k];
    }
  }

  /** Every string is unchanged by normalization or splits into user, device and server. */
  lemma Split(x: Jid) returns (user: string, device: string, server: string)
    ensures NormalizeJid(x) != x ==>
              && x == user + ":" + device + "@" + server
              && '@' !in user && ':' !in user && '@' !in device
  {
    user, device, server := "", "", "";
    var at := IndexOf(x, '@');
    if at != -1 {
      var colon := IndexOf(x[..at], ':');
      if colon != -1 {
        user, device, server := x[..colon], x[colon + 1..at], x[at + 1..];
        assert x[..at][colon] == x[colon];
        Rejoin(x, colon, at);
        Parts(x[..at], colon);
        assert x[..at][..colon] == user && x[..at][colon + 1..] == device;
      }
    }
  }

  lemma Rejoin(x: string, colon: nat, at: nat)
    requires colon < at < |x| && x[colon] == ':' && x[at] == '@'
    ensures x == x[..colon] + ":" + x[colon + 1..at] + "@" + x[at + 1..]
  {
    assert x == x[..colon] + [x[colon]] + x[colon + 1..at] + [x[at]] + x[at + 1..];
  }

  lemma Parts(head: string, colon: nat)
    requires colon < |head| && '@' !in head
    ensures '@' !in head[..colon] && '@' !in head[colon + 1..]
  {
    NoneInPart(head, '@', 0, colon);
    NoneInPart(head, '@', colon + 1, |head|);
  }

  lemma {:induction false} TrimLeftStops(u: string, r: string)
    requires r != "" && !IsSpace(r[0])
    ensures TrimLeft(u + r) == TrimLeft(u) + r
  {
    if u != "" && IsSpace(u[0]) {
      assert (u + r)[1..] == u[1..] + r;
      TrimLeftStops(u[1..], r);
    } else if u == "" {
      assert u + r == r;
    }
  }

  lemma {:induction false} TrimRightStops(l: string, v: string)
    requires l != "" && !IsSpace(l[|l| - 1])
    ensures TrimRight(l + v) == l + TrimRight(v)
  {
    if v != "" && IsSpace(v[|v| - 1]) {
      assert (l + v)[..|l + v| - 1] == l + v[..|v| - 1];
      TrimRightStops(l, v[..|v| - 1]);
    } else if v == "" {
      assert l + v == l;
    }
  }

  lemma {:induction false} TrimLeftShrinks(u: string, c: char)
    requires c !in u
    ensures c !in TrimLeft(u)
  {
    if u != "" && IsSpace(u[0]) {
      TrimLeftShrinks(u[1..], c);
    }
  }

  lemma TrimAround(user: string, middle: string, server: string)
    requires middle != "" && !IsSpace(middle[0]) && !IsSpace(middle[|middle| - 1])
    ensures Trim(user + middle + server) == TrimLeft(user) + middle + TrimRight(server)
  {
    assert user + middle + server == user + (middle + server);
    TrimLeftStops(user, middle + server);
    assert TrimLeft(user) + (middle + server) == (TrimLeft(user) + middle) + server;
    TrimRightStops(TrimLeft(user) + middle, server);
  }

  /** Normalizing first changes nothing about the trimmed and normalized form. */
  lemma TrimNormalize(x: Jid)
    ensures NormalizeJid(Trim(NormalizeJid(x))) == NormalizeJid(Trim(x))
    ensures NormalizeJid(NormalizeJid(x)) == NormalizeJid(x)
  {
    var user, device, server := Split(x);
    if NormalizeJid(x) != x {
      NormalizesTo(user, device, server);
      NormalForm(user, server);
      assert x == user + (":" + device + "@") + server;
      TrimAround(user, ":" + device + "@", server);
      TrimAround(user, "@", server);
      TrimLeftShrinks(user, '@');
      TrimLeftShrinks(user, ':');
      assert Trim(x) == TrimLeft(user) + ":" + device + "@" + TrimRight(server);
      NormalizesTo(TrimLeft(user), device, TrimRight(server));
      NormalForm(TrimLeft(user), TrimRight(server));
    }
  }

  /** Normalization and trimming keep a server suffix that starts with '@' and ends in no space. */
  lemma NormalizeKeepsSuffix(x: Jid, t: string)
    requires EndsWith(x, t) && t != "" && t[0] == '@'
    ensures EndsWith(NormalizeJid(x), t)
  {
    var at := IndexOf(x, '@');
    var k := |x| - |t|;
    assert x[k] == x[k..][0] == '@';
    if at >= 0 {
      NotBefore(x, '@', at);
      var colon := IndexOf(x[..at], ':');
      if colon != -1 {
        JoinKeepsSuffix(x[..colon], x, at, t);
      }
    }
  }

  lemma JoinKeepsSuffix(head: string, x: string, at: nat, t: string)
    requires EndsWith(x, t) && at <= |x| - |t|
    ensures EndsWith(head + x[at..], t)
  {
    var y := head + x[at..];
    assert y[|y| - |t|..] == x[|x| - |t|..];
  }

  lemma TrimKeepsSuffix(x: Jid, t: string)
    requires EndsWith(x, t) && t != "" && !IsSpace(t[0]) && !IsSpace(t[|t| - 1])
    ensures EndsWith(Trim(x), t)
  {
    var head := x[..|x| - |t|];
    assert x == head + t + "";
    TrimAround(head, t, "");
    assert TrimRight("") == "";
    assert Trim(x) == TrimLeft(head) + t;
  }

  predicate AllSpace(s: string) {
    forall k | 0 <= k < |s| :: IsSpace(s[k])
  }

  lemma {:induction false} TrimLeftIs(s: string) returns (a: string)
    ensures s == a + TrimLeft(s) && AllSpace(a)
    ensures TrimLeft(s) != "" ==> !IsSpace(TrimLeft(s)[0])
  {
    a := "";
    if s != "" && IsSpace(s[0]) {
      var rest := TrimLeftIs(s[1..]);
      a := [s[0]] + rest;
      assert s == [s[0]] + s[1..];
    }
  }

  lemma {:induction false} TrimRightIs(s: string) returns (b: string)
    ensures s == TrimRight(s) + b && AllSpace(b)
    ensures TrimRight(s) != "" ==> !IsSpace(TrimRight(s)[|TrimRight(s)| - 1]) && TrimRight(s)[0] == s[0]
  {
    b := "";
    if s != "" && IsSpace(s[|s| - 1]) {
      var rest := TrimRightIs(s[..|s| - 1]);
      b := rest + [s[|s| - 1]];
      assert s == s[..|s| - 1] + [s[|s| - 1]];
    }
  }

  /** Trimming cuts white space off both ends, and all of it. */
  lemma TrimIs(s: string) returns (a: string, b: string)
    ensures s == a + Trim(s) + b && AllSpace(a) && AllSpace(b)
    ensures Trim(s) != "" ==> !IsSpace(Trim(s)[0]) && !IsSpace(Trim(s)[|Trim(s)| - 1])
  {
    a := TrimLeftIs(s);
    b := TrimRightIs(TrimLeft(s));
  }

  lemma EndsWithIff(s: string, t: string)
    ensures EndsWith(s, t) <==> exists head: string :: s == head + t
  {
    if EndsWith(s, t) {
      assert s == s[..|s| - |t|] + t;
    }
  }

  /** Whatever device a JID names, it normalizes to the user's own. */
  lemma DevicesNormalizeAlike(user: string, device: string, server: string)
    requires '@' !in user && ':' !in user && '@' !in device
    ensures NormalizeJid(user + ":" + device + "@" + server) == NormalizeJid(user + "@" + server) == user + "@" + server
  {
    NormalizesTo(user, device, server);
    NormalForm(user, server);
  }
}
