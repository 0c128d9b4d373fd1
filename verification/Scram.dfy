/** The SCRAM-SHA-256 client (pkg/pgproxy/scram.go) against a server that follows section 3 of RFC 5802.

    Hash, HMAC, key derivation and base64 are parameters.  All that is assumed of them is that decoding
    undoes encoding, that encodings have no comma, that "n,," is encoded as "biws", and that HMAC values
    have one length.  The server is written from the RFC and shares no definition with the client. */
module Scram {
  import opened Common
  import opened Decimal

  type bytes = seq<bv8>

  datatype Crypto = Crypto(
    hash: bytes -> bytes,
    hmac: (bytes, string) -> bytes,
    derive: (string, bytes, nat) -> bytes,    // password, salt, iteration count
    encode: bytes -> string,
    decode: string -> Option<bytes>)

  function Ascii(s: string): bytes {
    if s == "" then [] else [if s[0] as int < 256 then s[0] as bv8 else 0] + Ascii(s[1..])
  }

  ghost predicate Sound(cr: Crypto) {
    && (forall b :: cr.decode(cr.encode(b)) == Some(b))
    && (forall b :: ',' !in cr.encode(b))
    && cr.encode(Ascii("n,,")) == "biws"
    && (forall k, m, l, n :: |cr.hmac(k, m)| == |cr.hmac(l, n)|)
  }

  function ByteChar(x: bv8): (c: char)
    ensures 256 <= c as int < 512
  {
    (256 + x as int) as char
  }

  function CharByte(c: char): bv8
    requires 256 <= c as int < 512
  {
    (c as int - 256) as bv8
  }

  lemma ByteBack(x: bv8)
    ensures CharByte(ByteChar(x)) == x
  {
  }

  /** One character for each byte, as a stand-in for base64 that meets the assumptions. */
  function Spell(b: bytes): string {
    if b == [] then "" else [ByteChar(b[0])] + Spell(b[1..])
  }

  function Unspell(s: string): Option<bytes> {
    if s == "" then Some([])
    else if !(256 <= s[0] as int < 512) then None
    else
      match Unspell(s[1..])
      case None => None
      case Some(b) => Some([CharByte(s[0])] + b)
  }

  lemma {:induction false} UnspellSpell(b: bytes)
    ensures Unspell(Spell(b)) == Some(b) && ',' !in Spell(b)
  {
    hide ByteChar, CharByte;
    if b != [] {
      UnspellSpell(b[1..]);
      ByteBack(b[0]);
      assert Spell(b) == [ByteChar(b[0])] + Spell(b[1..]) && Spell(b)[1..] == Spell(b[1..]);
      assert [b[0]] + b[1..] == b;
    }
  }

  function SpellTagged(b: bytes): string {
    if b == Ascii("n,,") then "biws" else Spell(b)
  }

  function UnspellTagged(s: string): Option<bytes> {
    if s == "biws" then Some(Ascii("n,,")) else Unspell(s)
  }

  lemma SpellIsNotTag(b: bytes)
    ensures Spell(b) != "biws"
  {
    if b != [] { assert Spell(b)[0] as int >= 256 && "biws"[0] as int < 256; }
  }

  /** The assumptions can be met. */
  lemma SoundCanBeMet()
    ensures exists cr :: Sound(cr)
  {
    hide Spell, Unspell, Ascii;
    var cr := Crypto(b => b, (k, m) => [], (p, s, n) => [], SpellTagged, UnspellTagged);
    forall b ensures cr.decode(cr.encode(b)) == Some(b) && ',' !in cr.encode(b) {
      UnspellSpell(b);
      SpellIsNotTag(b);
    }
    assert Sound(cr);
  }

  // ----- Splitting at commas -----

  function IndexByte(s: string, c: char): (i: int)
    ensures -1 <= i < |s|
    ensures i == -1 <==> c !in s
    ensures i >= 0 ==> s[i] == c && c !in s[..i]
  {
    if s == "" then -1
    else if s[0] == c then 0
    else
      var i := IndexByte(s[1..], c);
      assert s == [s[0]] + s[1..];
      if i == -1 then -1 else
        assert s[..i + 1] == [s[0]] + s[1..][..i];
        i + 1
  }

  /** The text before the first comma and the text after it are determined by the whole. */
  lemma FirstComma(a: string, b: string)
    requires ',' !in a
    ensures var s := a + "," + b; var i := IndexByte(s, ',');
            i == |a| && s[..i] == a && s[i + 1..] == b
  {
    var s := a + "," + b;
    var i := IndexByte(s, ',');
    assert s[|a|] == ',' && ',' in s;
    forall k | 0 <= k < |a| ensures s[k] != ',' { assert s[k] == a[k] && a[k] in a; }
    forall k | 0 <= k < i ensures s[k] != ',' { assert s[k] == s[..i][k] && s[..i][k] in s[..i]; }
  }

  /** Takes off a tag and the text up to the next comma. */
  function Cut(buf: string, tag: string): Option<(string, string)> {
    if !(tag <= buf) then None
    else
      var t := buf[|tag|..];
      var i := IndexByte(t, ',');
      if i == -1 then None else Some((t[..i], t[i + 1..]))
  }

  lemma CutIff(buf: string, tag: string, a: string, rest: string)
    ensures Cut(buf, tag) == Some((a, rest)) <==> buf == tag + (a + "," + rest) && ',' !in a
  {
    if buf == tag + (a + "," + rest) && ',' !in a {
      assert buf[|tag|..] == a + "," + rest;
      FirstComma(a, rest);
    }
    if Cut(buf, tag) == Some((a, rest)) {
      var t := buf[|tag|..];
      assert t == a + "," + rest;
      assert buf == tag + t;
    }
  }

  // ----- Messages -----

  function ServerFirst(nonce: string, salt64: string, count: string): string {
    "r=" + (nonce + "," + ("s=" + (salt64 + "," + ("i=" + count))))
  }

  /** The messages the client goes on with: its own nonce extended, a salt that decodes and a positive count. */
  predicate Acceptable(cr: Crypto, clientNonce: string, nonce: string, salt64: string, count: string) {
    && ',' !in nonce && ',' !in salt64
    && cr.decode(salt64).Some?
    && Atoi(count).Some? && Atoi(count).value > 0
    && clientNonce < nonce
  }

  function Xor(a: bytes, b: bytes): (r: bytes)
    requires |a| >= |b|
    ensures |r| == |b| && forall i :: 0 <= i < |b| ==> r[i] == a[i] ^ b[i]
  {
    seq(|b|, i requires 0 <= i < |b| => a[i] ^ b[i])
  }

  function ClientKey(cr: Crypto, salted: bytes): bytes { cr.hmac(salted, "Client Key") }

  function StoredKey(cr: Crypto, salted: bytes): bytes { cr.hash(ClientKey(cr, salted)) }

  function ServerSignature(cr: Crypto, salted: bytes, auth: string): bytes {
    cr.hmac(cr.hmac(salted, "Server Key"), auth)
  }

  function WithoutProof(nonce: string): string { "c=biws,r=" + nonce }

  function AuthMessage(bare: string, serverFirst: string, withoutProof: string): string {
    bare + "," + serverFirst + "," + withoutProof
  }

  // ----- The client -----

  method ComputeClientProof(cr: Crypto, salted: bytes, auth: string) returns (proof: string)
    requires Sound(cr)
    ensures var key := ClientKey(cr, salted); var sig := cr.hmac(cr.hash(key), auth);
            |key| == |sig| && proof == cr.encode(Xor(key, sig))
  {
    var clientKey := cr.hmac(salted, "Client Key");
    var storedKey := cr.hash(clientKey);
    var clientSignature := cr.hmac(storedKey, auth);
    var clientProof := new bv8[|clientSignature|];
    assert |clientKey| == |clientSignature|;
    for i := 0 to |clientSignature|
      invariant forall k :: 0 <= k < i ==> clientProof[k] == clientKey[k] ^ clientSignature[k]
    {
      clientProof[i] := clientKey[i] ^ clientSignature[i];
    }
    assert clientProof[..] == Xor(clientKey, clientSignature);
    proof := cr.encode(clientProof[..]);
  }

  method TakeField(buf: string, tag: string) returns (r: Option<(string, string)>)
    ensures r == Cut(buf, tag)
  {
    if !(tag <= buf) { return None; }
    var t := buf[|tag|..];
    var idx := IndexByte(t, ',');
    if idx == -1 { return None; }
    r := Some((t[..idx], t[idx + 1..]));
  }

  class Client {
    const cr: Crypto
    const password: string
    const clientNonce: string
    var bare: string
    var serverFirst: string
    var nonce: string
    var salt: bytes
    var iterations: int
    var salted: bytes
    var auth: string

    constructor (cr: Crypto, password: string, clientNonce: string)
      ensures this.cr == cr && this.password == password && this.clientNonce == clientNonce
    {
      this.cr, this.password, this.clientNonce := cr, password, clientNonce;
      bare, serverFirst, nonce, salt, iterations, salted, auth := "", "", "", [], 0, [], "";
    }

    method ClientFirstMessage() returns (m: string)
      modifies this`bare
      ensures bare == "n=,r=" + clientNonce && m == "n,," + bare
    {
      bare := "n=,r=" + clientNonce;
      m := "n,," + bare;
    }

    /** Accepts exactly the acceptable messages, and takes nonce, salt and count from them. */
    method RecvServerFirstMessage(m: string) returns (ok: bool)
      modifies this`serverFirst, this`nonce, this`salt, this`iterations
      ensures serverFirst == m
      ensures forall n, s, i :: m == ServerFirst(n, s, i) && Acceptable(cr, clientNonce, n, s, i) ==>
                ok && nonce == n && Some(salt) == cr.decode(s) && Some(iterations) == Atoi(i)
      ensures ok ==> exists s, i :: m == ServerFirst(nonce, s, i) && Acceptable(cr, clientNonce, nonce, s, i)
      ensures ok ==> |nonce| > |clientNonce| && nonce[..|clientNonce|] == clientNonce && iterations > 0
    {
      hide Atoi, IndexByte, ServerFirst, Cut;
      serverFirst := m;
      ok := false;
      var field := TakeField(m, "r=");
      if field == None { NoSplit(m); return; }
      var rest: string;
      nonce, rest := field.value.0, field.value.1;
      field := TakeField(rest, "s=");
      if field == None { NoSalt(m, nonce, rest); return; }
      var saltStr, buf := field.value.0, field.value.1;
      if !("i=" <= buf) { NoCount(m, nonce, rest, saltStr, buf); return; }
      var count := buf[2..];
      ParsedFully(m, nonce, rest, saltStr, buf, count);
      var decoded := cr.decode(saltStr);
      if decoded == None { return; }
      salt := decoded.value;
      var n := Atoi(count);
      if n == None { return; }
      iterations := n.value;
      if iterations <= 0 { return; }
      if !(clientNonce <= nonce) { return; }
      if |nonce| <= |clientNonce| { return; }
      ok := true;
      assert Acceptable(cr, clientNonce, nonce, saltStr, count);
    }

    method ClientFinalMessage() returns (m: string)
      requires Sound(cr) && iterations >= 0
      modifies this`salted, this`auth
      ensures salted == cr.derive(password, salt, iterations)
      ensures auth == AuthMessage(bare, serverFirst, WithoutProof(nonce))
      ensures var key := ClientKey(cr, salted); var sig := cr.hmac(StoredKey(cr, salted), auth);
              |key| == |sig| && m == WithoutProof(nonce) + "," + "p=" + cr.encode(Xor(key, sig))
      ensures ',' !in nonce ==>
                Finish(cr, Enrol(cr, password, salt, iterations), Session("n,,", bare, nonce, serverFirst), m)
                == Some("v=" + cr.encode(ServerSignature(cr, salted, auth)))
    {
      hide Finish, Enrol;
      var withoutProof := "c=biws,r=" + nonce;
      salted := cr.derive(password, salt, iterations);
      auth := bare + "," + serverFirst + "," + withoutProof;
      var proof := ComputeClientProof(cr, salted, auth);
      m := withoutProof + "," + "p=" + proof;
      if ',' !in nonce { ServerAccepts(cr, password, salt, iterations, Session("n,,", bare, nonce, serverFirst)); }
    }

    /** Only the signature made with the shared key over the whole exchange is accepted. */
    method RecvServerFinalMessage(m: string) returns (ok: bool)
      ensures ok <==> m == "v=" + cr.encode(ServerSignature(cr, salted, auth))
    {
      if !("v=" <= m) { return false; }
      assert m == "v=" + m[2..];
      ok := m[2..] == cr.encode(cr.hmac(cr.hmac(salted, "Server Key"), auth));
    }
  }

  /** How the client takes a message apart. */
  predicate Splits(m: string, nonce: string, salt64: string, count: string) {
    Cut(m, "r=") == Some((nonce, "s=" + (salt64 + "," + ("i=" + count)))) && ',' !in salt64
  }

  lemma SplitsIff(m: string, nonce: string, salt64: string, count: string)
    ensures Splits(m, nonce, salt64, count)
       <==> m == ServerFirst(nonce, salt64, count) && ',' !in nonce && ',' !in salt64
  {
    hide Cut;
    CutIff(m, "r=", nonce, "s=" + (salt64 + "," + ("i=" + count)));
  }

  lemma SplitsUnique(m: string, n: string, s: string, i: string, n': string, s': string, i': string)
    requires Splits(m, n, s, i) && Splits(m, n', s', i')
    ensures n == n' && s == s' && i == i'
  {
    hide Cut;
    var t, t' := s + "," + ("i=" + i), s' + "," + ("i=" + i');
    Untag("s=", t, t');
    FirstComma(s, "i=" + i);
    FirstComma(s', "i=" + i');
    Untag("i=", i, i');
  }

  ghost predicate Unparsable(m: string) {
    forall n, s, i :: m == ServerFirst(n, s, i) ==> ',' in n || ',' in s
  }

  lemma NoSplit(m: string)
    requires Cut(m, "r=") == None
    ensures Unparsable(m)
  {
    hide Cut, ServerFirst;
    forall n, s, i | m == ServerFirst(n, s, i) ensures ',' in n || ',' in s { SplitsIff(m, n, s, i); }
  }

  lemma NoSalt(m: string, nonce: string, rest: string)
    requires Cut(m, "r=") == Some((nonce, rest)) && Cut(rest, "s=") == None
    ensures Unparsable(m)
  {
    hide Cut, ServerFirst;
    forall n, s, i | m == ServerFirst(n, s, i) ensures ',' in n || ',' in s {
      SplitsIff(m, n, s, i);
      CutIff(rest, "s=", s, "i=" + i);
    }
  }

  lemma NoCount(m: string, nonce: string, rest: string, salt64: string, last: string)
    requires Cut(m, "r=") == Some((nonce, rest)) && Cut(rest, "s=") == Some((salt64, last)) && !("i=" <= last)
    ensures Unparsable(m)
  {
    hide Cut, ServerFirst;
    forall n, s, i | m == ServerFirst(n, s, i) ensures ',' in n || ',' in s {
      SplitsIff(m, n, s, i);
      CutIff(rest, "s=", s, "i=" + i);
    }
  }

  lemma ParsedFully(m: string, nonce: string, rest: string, salt64: string, last: string, count: string)
    requires Cut(m, "r=") == Some((nonce, rest)) && Cut(rest, "s=") == Some((salt64, last))
    requires "i=" <= last && count == last[2..]
    ensures m == ServerFirst(nonce, salt64, count) && ',' !in nonce && ',' !in salt64
    ensures forall n, s, i :: m == ServerFirst(n, s, i) && ',' !in n && ',' !in s ==>
              n == nonce && s == salt64 && i == count
  {
    hide Cut, ServerFirst;
    assert last == "i=" + count;
    CutIff(rest, "s=", salt64, last);
    SplitsIff(m, nonce, salt64, count);
    forall n, s, i | m == ServerFirst(n, s, i) && ',' !in n && ',' !in s
      ensures n == nonce && s == salt64 && i == count
    {
      SplitsIff(m, n, s, i);
      SplitsUnique(m, n, s, i, nonce, salt64, count);
    }
  }

  lemma Untag(p: string, a: string, b: string)
    ensures p + a == p + b ==> a == b
  {
    assert (p + a)[|p|..] == a && (p + b)[|p|..] == b;
  }

  /** A message extended after the count, as the protocol allows, is turned down. */
  lemma ExtensionIsNotAcceptable(cr: Crypto, clientNonce: string, nonce: string, salt64: string, count: string,
                                 ext: string)
    requires ',' !in nonce && ',' !in salt64
    ensures forall n, s, i :: ServerFirst(n, s, i) == ServerFirst(nonce, salt64, count + "," + ext) ==>
              !Acceptable(cr, clientNonce, n, s, i)
  {
    hide Atoi, Splits, ServerFirst;
    var all := count + "," + ext;
    var m := ServerFirst(nonce, salt64, all);
    SplitsIff(m, nonce, salt64, all);
    assert all[|count|] == ',';
    CommaIsNoNumber(all);
    forall n, s, i | ServerFirst(n, s, i) == m && ',' !in n && ',' !in s ensures i == all {
      SplitsIff(m, n, s, i);
      SplitsUnique(m, n, s, i, nonce, salt64, all);
    }
  }

  // ----- A server that follows section 3 of RFC 5802 -----

  function Split(s: string): (r: seq<string>)
    ensures |r| > 0
  {
    if s == "" then [""]
    else
      var r := Split(s[1..]);
      if s[0] == ',' then [""] + r else [[s[0]] + r[0]] + r[1..]
  }

  function Join(parts: seq<string>): string
    requires |parts| > 0
  {
    if |parts| == 1 then parts[0] else parts[0] + "," + Join(parts[1..])
  }

  lemma {:induction false} SplitPlain(s: string)
    requires ',' !in s
    ensures Split(s) == [s]
  {
    if s != "" {
      SplitPlain(s[1..]);
      assert [s[0]] + s[1..] == s;
    }
  }

  lemma {:induction false} SplitFirst(a: string, rest: string)
    requires ',' !in a
    ensures Split(a + "," + rest) == [a] + Split(rest)
  {
    if a == "" {
      assert ("," + rest)[1..] == rest && a + "," + rest == "," + rest;
    } else {
      var s := a + "," + rest;
      assert s[0] == a[0] && s[1..] == a[1..] + "," + rest;
      SplitFirst(a[1..], rest);
      assert [a[0]] + a[1..] == a;
    }
  }

  lemma {:induction false} SplitJoin(parts: seq<string>)
    requires |parts| > 0 && forall p <- parts :: ',' !in p
    ensures Split(Join(parts)) == parts
  {
    if |parts| == 1 {
      SplitPlain(parts[0]);
    } else {
      SplitFirst(parts[0], Join(parts[1..]));
      SplitJoin(parts[1..]);
    }
  }

  /** What the server keeps of a password: it checks proofs without knowing the password. */
  datatype Credentials = Credentials(salt: bytes, iterations: nat, storedKey: bytes, serverKey: bytes)

  function Enrol(cr: Crypto, password: string, salt: bytes, iterations: nat): Credentials {
    var salted := cr.derive(password, salt, iterations);
    Credentials(salt, iterations, cr.hash(cr.hmac(salted, "Client Key")), cr.hmac(salted, "Server Key"))
  }

  /** The client key that a proof hides behind a signature: the exclusive or of the two. */
  function Unmask(proof: bytes, sig: bytes): bytes
    requires |proof| == |sig|
  {
    if proof == [] then [] else [proof[0] ^ sig[0]] + Unmask(proof[1..], sig[1..])
  }

  lemma {:induction false} UnmaskProof(key: bytes, sig: bytes)
    requires |key| == |sig|
    ensures Unmask(Xor(key, sig), sig) == key
  {
    hide Xor, Unmask;
    if key != [] {
      UnmaskProof(key[1..], sig[1..]);
      XorTail(key, sig);
      UnmaskFirst(Xor(key, sig), sig);
      XorByte(key[0], sig[0]);
      assert [key[0]] + key[1..] == key;
    } else {
      assert Unmask(Xor(key, sig), sig) == [] by { UnmaskNothing(); }
    }
  }

  lemma UnmaskNothing()
    ensures Unmask([], []) == []
  {
  }

  lemma UnmaskFirst(proof: bytes, sig: bytes)
    requires |proof| == |sig| > 0
    ensures Unmask(proof, sig) == [proof[0] ^ sig[0]] + Unmask(proof[1..], sig[1..])
  {
  }

  lemma XorTail(a: bytes, b: bytes)
    requires |a| == |b| > 0
    ensures Xor(a, b)[1..] == Xor(a[1..], b[1..])
  {
    hide Xor;
  }

  lemma XorByte(x: bv8, y: bv8)
    ensures (x ^ y) ^ y == x
  {
  }

  /** What the server remembers of the first two messages: the GS2 header, the rest of the client's message,
      the nonce of both sides, and its own message. */
  datatype Session = Session(gs2: string, clientBare: string, nonce: string, sent: string)

  /** client-first-message: a GS2 header without channel binding, the user name, and the client's nonce. */
  function Begin(cr: Crypto, cred: Credentials, serverNonce: string, m: string): Option<Session> {
    var f := Split(m);
    if |f| == 4 && f[0] in {"n", "y"} && (f[1] == "" || "a=" <= f[1]) && "n=" <= f[2] && "r=" <= f[3]
    then
      var nonce := f[3][2..] + serverNonce;
      var sent := Join(["r=" + nonce, "s=" + cr.encode(cred.salt), "i=" + Itoa(cred.iterations)]);
      Some(Session(Join([f[0], f[1], ""]), Join([f[2], f[3]]), nonce, sent))
    else None
  }

  /** client-final-message: the channel binding must be the GS2 header, the nonce the one sent, and the proof,
      taken off the signature the server computes itself, must leave a key that hashes to the stored one.
      The answer is server-final-message. */
  function Finish(cr: Crypto, cred: Credentials, s: Session, m: string): Option<string> {
    var f := Split(m);
    if |f| == 3 && "c=" <= f[0] && "r=" <= f[1] && "p=" <= f[2]
       && f[0][2..] == cr.encode(Ascii(s.gs2)) && f[1][2..] == s.nonce
    then
      var authMessage := Join([s.clientBare, s.sent, Join([f[0], f[1]])]);
      var proof := cr.decode(f[2][2..]);
      var sig := cr.hmac(cred.storedKey, authMessage);
      if proof.Some? && |proof.value| == |sig| && cr.hash(Unmask(proof.value, sig)) == cred.storedKey
      then Some("v=" + cr.encode(cr.hmac(cred.serverKey, authMessage)))
      else None
    else None
  }

  /** The server understands the client's first message, and the client the server's. */
  lemma {:induction false} BeginsWith(cr: Crypto, cred: Credentials, clientNonce: string, serverNonce: string)
    requires ',' !in clientNonce
    ensures var nonce := clientNonce + serverNonce;
            Begin(cr, cred, serverNonce, "n,," + ("n=,r=" + clientNonce))
            == Some(Session("n,,", "n=,r=" + clientNonce, nonce,
                            ServerFirst(nonce, cr.encode(cred.salt), Itoa(cred.iterations))))
  {
    hide Split, Itoa, Join;
    var r := "r=" + clientNonce;
    var bare := "n=,r=" + clientNonce;
    JoinTwo("n=", r);
    assert Join(["n=", r]) == bare;
    JoinFour("n", "", "n=", r);
    assert Join(["n", "", "n=", r]) == "n,," + bare;
    SplitJoin(["n", "", "n=", r]);
    assert r[2..] == clientNonce;
    JoinThree("n", "", "");
    assert Join(["n", "", ""]) == "n,,";
    var nonce := clientNonce + serverNonce;
    var salt, count := cr.encode(cred.salt), Itoa(cred.iterations);
    JoinThree("r=" + nonce, "s=" + salt, "i=" + count);
    assert Join(["r=" + nonce, "s=" + salt, "i=" + count]) == ServerFirst(nonce, salt, count);
  }

  lemma JoinFour(a: string, b: string, c: string, d: string)
    ensures Join([a, b, c, d]) == a + "," + (b + "," + Join([c, d]))
  {
    assert [a, b, c, d][1..] == [b, c, d] && [b, c, d][1..] == [c, d];
  }

  lemma JoinTwo(a: string, b: string)
    ensures Join([a, b]) == a + "," + b
  {
    assert [a, b][1..] == [b];
  }

  lemma JoinThree(a: string, b: string, c: string)
    ensures Join([a, b, c]) == a + "," + (b + "," + c)
  {
    assert [a, b, c][1..] == [b, c];
    JoinTwo(b, c);
  }

  /** The proof made from the password convinces the server, whose answer is signed with the same key
      over the same messages. */
  lemma {:induction false} ServerAccepts(cr: Crypto, password: string, salt: bytes, iterations: nat, s: Session)
    requires Sound(cr) && s.gs2 == "n,," && ',' !in s.nonce
    ensures var salted := cr.derive(password, salt, iterations);
            var auth := AuthMessage(s.clientBare, s.sent, WithoutProof(s.nonce));
            var key := ClientKey(cr, salted);
            var sig := cr.hmac(StoredKey(cr, salted), auth);
            && |key| == |sig|
            && Finish(cr, Enrol(cr, password, salt, iterations), s,
                      WithoutProof(s.nonce) + "," + "p=" + cr.encode(Xor(key, sig)))
               == Some("v=" + cr.encode(ServerSignature(cr, salted, auth)))
  {
    hide Split, Xor, Ascii, Unmask;
    var salted := cr.derive(password, salt, iterations);
    var auth := AuthMessage(s.clientBare, s.sent, WithoutProof(s.nonce));
    var key := ClientKey(cr, salted);
    var sig := cr.hmac(StoredKey(cr, salted), auth);
    assert |key| == |sig|;
    var proof := cr.encode(Xor(key, sig));
    FinalSplits(s.nonce, proof);
    JoinThree(s.clientBare, s.sent, WithoutProof(s.nonce));
    assert Join([s.clientBare, s.sent, WithoutProof(s.nonce)]) == auth;
    UnmaskProof(key, sig);
  }

  lemma {:induction false} FinalSplits(nonce: string, proof: string)
    requires ',' !in nonce && ',' !in proof
    ensures Split(WithoutProof(nonce) + "," + "p=" + proof) == ["c=biws", "r=" + nonce, "p=" + proof]
    ensures Join(["c=biws", "r=" + nonce]) == WithoutProof(nonce)
    ensures "c=biws"[2..] == "biws" && ("r=" + nonce)[2..] == nonce && ("p=" + proof)[2..] == proof
  {
    hide Split;
    var parts := ["c=biws", "r=" + nonce, "p=" + proof];
    JoinThree(parts[0], parts[1], parts[2]);
    JoinTwo(parts[0], parts[1]);
    SplitJoin(parts);
    assert Join(parts) == WithoutProof(nonce) + "," + "p=" + proof;
  }

  /** The whole exchange with such a server that knows the same password: it never fails, whatever the
      nonces, salt and iteration count, and both sides end up convinced. */
  method Exchange(cr: Crypto, mechanisms: seq<string>, password: string, clientNonce: string,
                  serverNonce: string, salt: bytes, iterations: nat)
    returns (clientOk: bool, serverOk: bool)
    requires Sound(cr) && ',' !in clientNonce && ',' !in serverNonce && serverNonce != ""
    requires 0 < iterations < 0x8000_0000_0000_0000
    ensures clientOk == serverOk == ("SCRAM-SHA-256" in mechanisms)
  {
    hide Atoi, Itoa, Splits, Begin, Finish, Xor;
    clientOk, serverOk := false, false;
    if "SCRAM-SHA-256" !in mechanisms { return; }
    var cred := Enrol(cr, password, salt, iterations);
    var sc := new Client(cr, password, clientNonce);
    var first := sc.ClientFirstMessage();
    BeginsWith(cr, cred, clientNonce, serverNonce);
    var session := Begin(cr, cred, serverNonce, first).value;
    AtoiItoa(iterations);
    assert Acceptable(cr, clientNonce, session.nonce, cr.encode(salt), Itoa(iterations)) by {
      assert |clientNonce| < |session.nonce| && session.nonce[..|clientNonce|] == clientNonce;
    }
    var ok := sc.RecvServerFirstMessage(session.sent);
    assert ok && sc.nonce == session.nonce && sc.salt == salt && sc.iterations == iterations;
    var final := sc.ClientFinalMessage();
    ServerAccepts(cr, password, salt, iterations, session);
    var answer := Finish(cr, cred, session, final);
    serverOk := answer.Some?;
    clientOk := sc.RecvServerFinalMessage(answer.value);
  }
}
