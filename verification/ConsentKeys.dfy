/** The key material two peers derive for one session, with SHA-256 as a parameter. */
module ConsentKeys {
  import opened Basics
  import opened Text

  const SOH := '\U{0001}'
  const STX := '\U{0002}'

  type Hash = string -> string

  ghost predicate Injective(hash: Hash) {
    forall a, b :: hash(a) == hash(b) ==> a == b
  }

  /** What a peer is known by: its ID, its signalling session and its token. */
  datatype Party = Party(id: string, session: string, token: string)

  predicate Complete(p: Party) { p.id != "" && p.session != "" && p.token != "" }

  function Endpoint(p: Party): string { p.id + [NUL] + p.session + [NUL] + p.token }

  /** The hashed text of consentMaterial as `mine` computes it: the two endpoints sorted. */
  function MaterialInput(mine: Party, theirs: Party, negotiation: string): Option<string> {
    if !Complete(mine) || !Complete(theirs) then None
    else
      var a, b := Endpoint(mine), Endpoint(theirs);
      Some(negotiation + [STX] + if StringLess(b, a) then b + [SOH] + a else a + [SOH] + b)
  }

  /** Both ends of a negotiation compute the same material. */
  lemma MaterialAgrees(a: Party, b: Party, negotiation: string)
    ensures MaterialInput(a, b, negotiation) == MaterialInput(b, a, negotiation)
  {
    StringLessTrichotomy(Endpoint(a), Endpoint(b));
  }

  /** The text itself: the negotiation, and the two endpoints in the order of their bytes; none for an incomplete party. */
  lemma MaterialText(a: Party, b: Party, n: string)
    ensures var x, y := a.id + "\0" + a.session + "\0" + a.token, b.id + "\0" + b.session + "\0" + b.token;
            var whole := a.id != "" && a.session != "" && a.token != "" && b.id != "" && b.session != "" && b.token != "";
            && (!whole ==> MaterialInput(a, b, n).None?)
            && (whole && (x == y || StringLess(x, y)) ==> MaterialInput(a, b, n) == Some(n + [STX] + x + [SOH] + y))
            && (whole && StringLess(y, x) ==> MaterialInput(a, b, n) == Some(n + [STX] + y + [SOH] + x))
  {
    assert "\0" == [NUL];
    StringLessTrichotomy(Endpoint(a), Endpoint(b));
    var x, y := Endpoint(a), Endpoint(b);
    assert n + [STX] + (x + [SOH] + y) == n + [STX] + x + [SOH] + y;
    assert n + [STX] + (y + [SOH] + x) == n + [STX] + y + [SOH] + x;
  }

  predicate Plain(s: string) { NUL !in s && SOH !in s && STX !in s }

  predicate PlainParty(p: Party) { Plain(p.id) && Plain(p.session) && Plain(p.token) }

  lemma EndpointCommits(a: Party, b: Party)
    requires PlainParty(a) && PlainParty(b)
    ensures Endpoint(a) == Endpoint(b) <==> a == b
    ensures SOH !in Endpoint(a) && STX !in Endpoint(a)
  {
    if Endpoint(a) == Endpoint(b) {
      LastSeparator(a.id + [NUL] + a.session, a.token, b.id + [NUL] + b.session, b.token, NUL);
      LastSeparator(a.id, a.session, b.id, b.session, NUL);
    }
  }

  /** The two endpoints in the order they are hashed. */
  function Sorted(a: Party, b: Party): (Party, Party) {
    if StringLess(Endpoint(b), Endpoint(a)) then (b, a) else (a, b)
  }

  /**
   * Main result: without control characters in the fields, the hashed text determines the
   * negotiation and the two parties, so material is shared by the two ends of one negotiation only.
   */
  lemma MaterialCommits(a: Party, b: Party, n: string, c: Party, d: Party, m: string)
    requires PlainParty(a) && PlainParty(b) && PlainParty(c) && PlainParty(d)
    requires MaterialInput(a, b, n).Some? && MaterialInput(c, d, m).Some?
    ensures MaterialInput(a, b, n) == MaterialInput(c, d, m) <==> n == m && ((a == c && b == d) || (a == d && b == c))
  {
    var (p, q) := Sorted(a, b);
    var (r, s) := Sorted(c, d);
    EndpointCommits(p, r);
    EndpointCommits(q, s);
    EndpointCommits(r, p);
    EndpointCommits(s, q);
    assert MaterialInput(a, b, n).value == n + [STX] + (Endpoint(p) + [SOH] + Endpoint(q));
    assert MaterialInput(c, d, m).value == m + [STX] + (Endpoint(r) + [SOH] + Endpoint(s));
    if MaterialInput(a, b, n) == MaterialInput(c, d, m) {
      hide Endpoint;
      LastSeparator(n, Endpoint(p) + [SOH] + Endpoint(q), m, Endpoint(r) + [SOH] + Endpoint(s), STX);
      LastSeparator(Endpoint(p), Endpoint(q), Endpoint(r), Endpoint(s), SOH);
    }
    if a == d && b == c { MaterialAgrees(a, b, n); }
  }

  /** A party whose fields use only the given characters. */
  ghost predicate Over(alphabet: set<char>, p: Party) {
    && (forall c | c in p.id :: c in alphabet)
    && (forall c | c in p.session :: c in alphabet)
    && (forall c | c in p.token :: c in alphabet)
  }

  /** Parties over the alphabet share a hashed text only as the two ends of one negotiation. */
  ghost predicate CommitsOver(alphabet: set<char>) {
    forall a: Party, b: Party, n: string, c: Party, d: Party, m: string |
      Over(alphabet, a) && Over(alphabet, b) && Over(alphabet, c) && Over(alphabet, d)
      && MaterialInput(a, b, n).Some? && MaterialInput(a, b, n) == MaterialInput(c, d, m) ::
      n == m && ((a == c && b == d) || (a == d && b == c))
  }

  /** The exact alphabets: those without the three separators. */
  lemma CommitsExactly(alphabet: set<char>)
    ensures CommitsOver(alphabet) <==> NUL !in alphabet && SOH !in alphabet && STX !in alphabet
  {
    if NUL !in alphabet && SOH !in alphabet && STX !in alphabet {
      forall a: Party, b: Party, n: string, c: Party, d: Party, m: string |
        Over(alphabet, a) && Over(alphabet, b) && Over(alphabet, c) && Over(alphabet, d)
        && MaterialInput(a, b, n).Some? && MaterialInput(a, b, n) == MaterialInput(c, d, m)
        ensures n == m && ((a == c && b == d) || (a == d && b == c))
      {
        MaterialCommits(a, b, n, c, d, m);
      }
    } else if NUL in alphabet {
      NulCollides();
      assert Over(alphabet, Party([NUL, NUL], [NUL], [NUL])) && Over(alphabet, Party([NUL], [NUL, NUL], [NUL]));
    } else if SOH in alphabet {
      SohCollides();
      var x, xx := [SOH], [SOH, SOH];
      assert Over(alphabet, Party(x, x, xx)) && Over(alphabet, Party(x, xx, x));
      assert Over(alphabet, Party(x, x, x)) && Over(alphabet, Party(xx, xx, x));
    } else {
      StxCollides();
      var x, xx := [STX], [STX, STX];
      assert Over(alphabet, Party(xx, x, x)) && Over(alphabet, Party(x, x, x)) && Over(alphabet, Party([STX, STX, STX], x, x));
    }
  }

  /** A NUL may belong to either of two fields. */
  lemma NulCollides()
    ensures var a, b := Party([NUL, NUL], [NUL], [NUL]), Party([NUL], [NUL, NUL], [NUL]);
            MaterialInput(a, a, "") == MaterialInput(b, a, "")
  {
    var a, b := Party([NUL, NUL], [NUL], [NUL]), Party([NUL], [NUL, NUL], [NUL]);
    assert Endpoint(a) == [NUL, NUL, NUL, NUL, NUL, NUL] == Endpoint(b);
  }

  /** An SOH may belong to either of the two endpoints. */
  lemma SohCollides()
    ensures var x, xx := [SOH], [SOH, SOH];
            MaterialInput(Party(x, x, xx), Party(x, xx, x), "") == MaterialInput(Party(x, x, x), Party(xx, xx, x), "")
  {
    var x, xx := [SOH], [SOH, SOH];
    var p, q, r, s := Endpoint(Party(x, x, xx)), Endpoint(Party(x, xx, x)), Endpoint(Party(x, x, x)), Endpoint(Party(xx, xx, x));
    assert p == [SOH, NUL, SOH] + [NUL, SOH, SOH] && q == [SOH, NUL, SOH] + [SOH, NUL, SOH];
    assert r == [SOH] + [NUL, SOH, NUL, SOH] && s == [SOH] + [SOH, NUL, SOH, SOH, NUL, SOH];
    FirstDifference([SOH, NUL, SOH], q[3..], p[3..]);
    FirstDifference([SOH], s[1..], r[1..]);
    assert p + [SOH] + q == r + [SOH] + s;
  }

  /** An STX may belong to the negotiation or to an endpoint. */
  lemma StxCollides()
    ensures var x, last := [STX], Party([STX, STX, STX], [STX], [STX]);
            MaterialInput(Party([STX, STX], x, x), last, "") == MaterialInput(Party(x, x, x), last, x)
  {
    var x, last := [STX], Party([STX, STX, STX], [STX], [STX]);
    var p, q, e := Endpoint(Party([STX, STX], x, x)), Endpoint(Party(x, x, x)), Endpoint(last);
    assert p == [STX, STX] + [NUL, STX, NUL, STX] && q == [STX] + [NUL, STX, NUL, STX];
    assert e == [STX, STX] + [STX, NUL, STX, NUL, STX] && e == [STX] + [STX, STX, NUL, STX, NUL, STX];
    FirstDifference([STX, STX], e[2..], p[2..]);
    FirstDifference([STX], e[1..], q[1..]);
    assert p == [STX] + q;
    assert [] + [STX] + (p + [SOH] + e) == x + [STX] + (q + [SOH] + e);
  }

  /** The first different character decides. */
  lemma {:induction false} FirstDifference(shared: string, a: string, b: string)
    requires a != [] && b != [] && b[0] < a[0]
    ensures !StringLess(shared + a, shared + b)
  {
    if shared == [] {
      assert shared + a == a && shared + b == b;
    } else {
      assert (shared + a)[1..] == shared[1..] + a && (shared + b)[1..] == shared[1..] + b;
      FirstDifference(shared[1..], a, b);
    }
  }

  // ----- keys per direction -----

  function DeriveInput(name: string, key: string, session: string): string {
    "xrok-p2p/" + name + "/v1" + [NUL] + key + [NUL] + session
  }

  /** deriveConsentKey */
  function Derive(hash: Hash, name: string, key: string, session: string): string {
    hash(DeriveInput(name, key, session))
  }

  lemma LabelCommits(hash: Hash, l1: string, l2: string, key: string, session: string)
    requires Injective(hash)
    ensures Derive(hash, l1, key, session) == Derive(hash, l2, key, session) <==> l1 == l2
  {
    if Derive(hash, l1, key, session) == Derive(hash, l2, key, session) {
      var head, tail := "xrok-p2p/", "/v1" + [NUL] + key + [NUL] + session;
      var s, t := DeriveInput(l1, key, session), DeriveInput(l2, key, session);
      assert s == head + l1 + tail && t == head + l2 + tail;
      assert |l1| == |l2|;
      assert l1 == s[|head|..|head| + |l1|] && l2 == t[|head|..|head| + |l1|];
    }
  }

  /** Under one label, keys of one length and sessions are committed to as well. */
  lemma DerivationCommits(hash: Hash, name: string, key1: string, session1: string, key2: string, session2: string)
    requires Injective(hash) && |key1| == |key2|
    ensures Derive(hash, name, key1, session1) == Derive(hash, name, key2, session2) <==> key1 == key2 && session1 == session2
  {
    if Derive(hash, name, key1, session1) == Derive(hash, name, key2, session2) {
      var head := "xrok-p2p/" + name + "/v1" + [NUL];
      var s, t := DeriveInput(name, key1, session1), DeriveInput(name, key2, session2);
      assert s == head + key1 + ([NUL] + session1) && t == head + key2 + ([NUL] + session2);
      assert key1 == s[|head|..|head| + |key1|] && key2 == t[|head|..|head| + |key1|];
      assert session1 == s[|head| + |key1| + 1..] && session2 == t[|head| + |key1| + 1..];
    }
  }

  /** The text behind one key. */
  lemma DerivedText(hash: Hash, name: string, key: string, session: string)
    ensures Derive(hash, name, key, session) == hash("xrok-p2p/" + name + ("/v1" + [NUL] + key + [NUL] + session))
  {
    assert DeriveInput(name, key, session) == "xrok-p2p/" + name + ("/v1" + [NUL] + key + [NUL] + session);
  }

  /** Which of the five derivations each key is. */
  lemma KeyTexts(hash: Hash, key: string, session: string, a: string, b: string)
    ensures var k, rest := KeysOf(hash, key, session, a, b), "/v1" + [NUL] + key + [NUL] + session;
            && k.control == hash("xrok-p2p/" + "control" + rest)
            && k.send == hash("xrok-p2p/" + ("data/from/" + a) + rest) && k.receive == hash("xrok-p2p/" + ("data/from/" + b) + rest)
            && k.sendAck == hash("xrok-p2p/" + ("ack/for/" + a) + rest) && k.receiveAck == hash("xrok-p2p/" + ("ack/for/" + b) + rest)
  {
    hide Derive;
    DerivedText(hash, "control", key, session);
    DerivedText(hash, "data/from/" + a, key, session);
    DerivedText(hash, "data/from/" + b, key, session);
    DerivedText(hash, "ack/for/" + a, key, session);
    DerivedText(hash, "ack/for/" + b, key, session);
  }

  /** The keys of one end, in the order newDirectionalConsentConn derives them. */
  datatype Keys = Keys(control: string, send: string, receive: string, sendAck: string, receiveAck: string)

  function KeysOf(hash: Hash, key: string, session: string, sendLabel: string, receiveLabel: string): Keys {
    Keys(Derive(hash, "control", key, session),
         Derive(hash, "data/from/" + sendLabel, key, session), Derive(hash, "data/from/" + receiveLabel, key, session),
         Derive(hash, "ack/for/" + sendLabel, key, session), Derive(hash, "ack/for/" + receiveLabel, key, session))
  }

  /** The other end's view of the same keys. */
  function Mirror(k: Keys): Keys { Keys(k.control, k.receive, k.send, k.receiveAck, k.sendAck) }

  ghost predicate AllDifferent(k: Keys) {
    && k.control !in {k.send, k.receive, k.sendAck, k.receiveAck}
    && k.send != k.receive && k.sendAck != k.receiveAck
    && {k.send, k.receive} !! {k.sendAck, k.receiveAck}
  }

  /** Main result: the ends mirror each other, and no key serves two purposes exactly when the labels differ. */
  lemma KeysAreSeparate(hash: Hash, key: string, session: string, a: string, b: string)
    requires Injective(hash)
    ensures KeysOf(hash, key, session, b, a) == Mirror(KeysOf(hash, key, session, a, b))
    ensures AllDifferent(KeysOf(hash, key, session, a, b)) <==> a != b
  {
    var data, ack := "data/from/", "ack/for/";
    hide Derive, Injective;
    Apart(hash, "control", data + a, key, session);
    Apart(hash, "control", data + b, key, session);
    Apart(hash, "control", ack + a, key, session);
    Apart(hash, "control", ack + b, key, session);
    Apart(hash, data + a, ack + a, key, session);
    Apart(hash, data + a, ack + b, key, session);
    Apart(hash, data + b, ack + a, key, session);
    Apart(hash, data + b, ack + b, key, session);
    LabelCommits(hash, data + a, data + b, key, session);
    LabelCommits(hash, ack + a, ack + b, key, session);
    SamePrefix(data, a, b);
    SamePrefix(ack, a, b);
  }

  lemma Apart(hash: Hash, l1: string, l2: string, key: string, session: string)
    requires Injective(hash) && l1 != [] && l2 != [] && l1[0] != l2[0]
    ensures Derive(hash, l1, key, session) != Derive(hash, l2, key, session)
  {
    LabelCommits(hash, l1, l2, key, session);
  }

  lemma SamePrefix(p: string, a: string, b: string)
    ensures p + a == p + b <==> a == b
  {
    assert (p + a)[|p|..] == a && (p + b)[|p|..] == b;
  }
}
