// Access tokens and password hashes. HMAC (RFC 2104, section 2) and SHA-256 are
// parameters: any functions on bytes.
module Tokens {
  import opened Common
  import opened Encodings

  type Hmac = (Bytes, Bytes) -> Bytes   // key, message
  type Sha = Bytes -> Bytes

  datatype User = User(id: int, username: Bytes)

  datatype Error =
    | InvalidEncoding | InvalidToken | InvalidSignature | InvalidExpiration | Expired | InvalidUserId

  datatype Verdict = Accepted(user: User) | Rejected(error: Error)

  const NANOSECONDS: int := 1_000_000_000

  // The ttl is a duration in nanoseconds, like every time below.
  datatype TokenManager = TokenManager(secret: Bytes, ttl: int)

  // time.Time.Unix: whole seconds, rounded down
  function Unix(t: int): int {
    t / NANOSECONDS
  }

  function Sign(hmac: Hmac, m: TokenManager, payload: Bytes): Bytes {
    HexEncode(hmac(m.secret, payload))
  }

  // "%d:%s:%d"
  function Payload(user: User, expires: int): Bytes {
    FormatInt(user.id) + [COLON] + user.username + [COLON] + FormatInt(expires)
  }

  function Raw(hmac: Hmac, m: TokenManager, payload: Bytes): Bytes {
    payload + [COLON] + Sign(hmac, m, payload)
  }

  function Issue(hmac: Hmac, m: TokenManager, user: User, now: int): Bytes {
    Encode64(Raw(hmac, m, Payload(user, Unix(now + m.ttl))))
  }

  function Verify(hmac: Hmac, m: TokenManager, token: Bytes, now: int): Verdict {
    match Decode64(token)
    case None => Rejected(InvalidEncoding)
    case Some(raw) =>
      var parts := Split(raw, COLON);
      if |parts| != 4 then Rejected(InvalidToken)
      else if parts[3] != Sign(hmac, m, Join(parts[..3], COLON)) then Rejected(InvalidSignature)
      else match ParseInt(parts[2])
        case None => Rejected(InvalidExpiration)
        case Some(expires) =>
          if Unix(now) > expires then Rejected(Expired)
          else match ParseInt(parts[0])
            case None => Rejected(InvalidUserId)
            case Some(id) => Accepted(User(id, parts[1]))
  }

  // ---- tokens

  // The payload of a colon-free name has exactly its three fields.
  lemma PayloadParts(user: User, expires: int, tail: Bytes)
    requires IsInt64(user.id) && IsInt64(expires) && COLON !in user.username && COLON !in tail
    ensures Split(Payload(user, expires) + [COLON] + tail, COLON)
         == [FormatInt(user.id), user.username, FormatInt(expires), tail]
    ensures Join([FormatInt(user.id), user.username, FormatInt(expires)], COLON) == Payload(user, expires)
  {
    hide Split;
    hide Join;
    hide FormatInt;
    hide ParseInt;
    var id, name, exp := FormatInt(user.id), user.username, FormatInt(expires);
    IntRoundTrip(user.id);
    IntRoundTrip(expires);
    SplitWithout(tail, COLON);
    SplitAtFirst(exp, tail, COLON);
    SplitAtFirst(name, exp + [COLON] + tail, COLON);
    SplitAtFirst(id, name + [COLON] + (exp + [COLON] + tail), COLON);
    assert Payload(user, expires) + [COLON] + tail == id + [COLON] + (name + [COLON] + (exp + [COLON] + tail));
    JoinThree(id, name, exp);
    assert id + [COLON] + (name + [COLON] + exp) == Payload(user, expires);
  }

  // A colon in the name makes too many fields.
  lemma PayloadTooManyParts(hmac: Hmac, m: TokenManager, user: User, expires: int)
    requires IsInt64(user.id) && IsInt64(expires) && COLON in user.username
    ensures |Split(Raw(hmac, m, Payload(user, expires)), COLON)| > 4
  {
    var id, name, exp := FormatInt(user.id), user.username, FormatInt(expires);
    var payload := Payload(user, expires);
    var sig := Sign(hmac, m, payload);
    SplitCount(Raw(hmac, m, payload), COLON);
    CountConcat(payload + [COLON], sig, COLON);
    CountConcat(payload, [COLON], COLON);
    CountConcat(id + [COLON] + name + [COLON], exp, COLON);
    CountConcat(id + [COLON] + name, [COLON], COLON);
    CountConcat(id + [COLON], name, COLON);
    CountConcat(id, [COLON], COLON);
    CountZeroIff(name, COLON);
    assert Count([COLON], COLON) == 1 + Count([], COLON);
  }

  lemma ColonFreeVerdict(hmac: Hmac, m: TokenManager, user: User, expires: int, now: int)
    requires IsInt64(user.id) && IsInt64(expires) && COLON !in user.username
    ensures Verify(hmac, m, Encode64(Raw(hmac, m, Payload(user, expires))), now)
         == if Unix(now) > expires then Rejected(Expired) else Accepted(user)
  {
    hide Payload;
    hide Split;
    hide Join;
    var payload := Payload(user, expires);
    Base64RoundTrip(Raw(hmac, m, payload));
    HexRoundTrip(hmac(m.secret, payload));
    PayloadParts(user, expires, Sign(hmac, m, payload));
    var parts := Split(Raw(hmac, m, payload), COLON);
    assert parts[..3] == [FormatInt(user.id), user.username, FormatInt(expires)];
    IntRoundTrip(user.id);
    IntRoundTrip(expires);
  }

  // A token verifies to its user exactly when the name has no colon and the
  // second of expiry has not passed; each failure has its own verdict.
  lemma IssueVerify(hmac: Hmac, m: TokenManager, user: User, issued: int, now: int)
    requires IsInt64(user.id) && IsInt64(Unix(issued + m.ttl))
    ensures var verdict := Verify(hmac, m, Issue(hmac, m, user, issued), now);
      && (verdict == Accepted(user) <==> COLON !in user.username && Unix(now) <= Unix(issued + m.ttl))
      && (COLON in user.username ==> verdict == Rejected(InvalidToken))
      && (COLON !in user.username && Unix(now) > Unix(issued + m.ttl) ==> verdict == Rejected(Expired))
  {
    hide Payload;
    hide Raw;
    hide Split;
    var expires := Unix(issued + m.ttl);
    Base64RoundTrip(Raw(hmac, m, Payload(user, expires)));
    if COLON in user.username {
      PayloadTooManyParts(hmac, m, user, expires);
    } else {
      ColonFreeVerdict(hmac, m, user, expires, now);
    }
  }

  // What a token for a user says, spelled out: id, name and second of expiry with
  // colons between them.
  function Spelled(user: User, issued: int, ttl: int): Bytes {
    FormatInt(user.id) + [58] + user.username + [58] + FormatInt((issued + ttl) / 1_000_000_000)
  }

  // A token is the base64url form of that text, a colon and the hex form of its
  // HMAC under the issuer's secret.
  lemma IssuedText(hmac: Hmac, m: TokenManager, user: User, issued: int)
    ensures var p := Spelled(user, issued, m.ttl);
            Decode64(Issue(hmac, m, user, issued)) == Some(p + [58] + HexEncode(hmac(m.secret, p)))
  {
    Base64RoundTrip(Raw(hmac, m, Payload(user, Unix(issued + m.ttl))));
  }

  lemma HexInjective(a: Bytes, b: Bytes)
    ensures HexEncode(a) == HexEncode(b) <==> a == b
  {
    HexRoundTrip(a);
    HexRoundTrip(b);
  }

  // Across managers: a token for a colon-free name is accepted by another manager
  // exactly when its secret gives the text the same HMAC and the second of expiry
  // has not passed; a different HMAC is an invalid signature, expired or not.
  lemma IssueVerifyAcross(hmac: Hmac, m: TokenManager, m': TokenManager, user: User, issued: int, now: int)
    requires IsInt64(user.id) && IsInt64((issued + m.ttl) / 1_000_000_000) && 58 !in user.username
    ensures var p := Spelled(user, issued, m.ttl);
            Verify(hmac, m', Issue(hmac, m, user, issued), now)
            == if hmac(m'.secret, p) != hmac(m.secret, p) then Rejected(InvalidSignature)
               else if now / 1_000_000_000 > (issued + m.ttl) / 1_000_000_000 then Rejected(Expired)
               else Accepted(user)
  {
    hide Split;
    hide Join;
    var expires := (issued + m.ttl) / 1_000_000_000;
    var p := Payload(user, expires);
    assert p == Spelled(user, issued, m.ttl);
    hide Payload;
    IssuedText(hmac, m, user, issued);
    HexRoundTrip(hmac(m.secret, p));
    HexInjective(hmac(m.secret, p), hmac(m'.secret, p));
    PayloadParts(user, expires, HexEncode(hmac(m.secret, p)));
    var parts := Split(p + [COLON] + HexEncode(hmac(m.secret, p)), COLON);
    assert parts[..3] == [FormatInt(user.id), user.username, FormatInt(expires)];
    IntRoundTrip(user.id);
    IntRoundTrip(expires);
  }

  // A text of three fields that make a user and an expiry not yet passed.
  ghost predicate Says(payload: Bytes, user: User, now: int) {
    var fields := Split(payload, 58);
    && |fields| == 3
    && ParseInt(fields[0]) == Some(user.id) && fields[1] == user.username
    && ParseInt(fields[2]).Some? && now / 1_000_000_000 <= ParseInt(fields[2]).value
  }

  // A token is accepted for a user exactly when it is such a text, a colon and the
  // hex form of the text's HMAC under the manager's own secret.
  lemma AcceptedIsSigned(hmac: Hmac, m: TokenManager, token: Bytes, now: int, user: User)
    ensures Verify(hmac, m, token, now) == Accepted(user)
      <==> exists payload: Bytes ::
             && Decode64(token) == Some(payload + [58] + HexEncode(hmac(m.secret, payload)))
             && Says(payload, user, now)
  {
    if Verify(hmac, m, token, now) == Accepted(user) {
      var raw := Decode64(token).value;
      ThreeAndOne(raw);
      var payload := Join(Split(raw, COLON)[..3], COLON);
      assert Decode64(token) == Some(payload + [58] + HexEncode(hmac(m.secret, payload)));
      assert Says(payload, user, now);
    }
    if payload: Bytes :| && Decode64(token) == Some(payload + [58] + HexEncode(hmac(m.secret, payload)))
                         && Says(payload, user, now) {
      var signature := HexEncode(hmac(m.secret, payload));
      HexRoundTrip(hmac(m.secret, payload));
      SignedParts(payload, signature);
    }
  }

  // Four fields are three and one.
  lemma ThreeAndOne(raw: Bytes)
    requires |Split(raw, COLON)| == 4
    ensures var parts := Split(raw, COLON);
      && raw == Join(parts[..3], COLON) + [COLON] + parts[3]
      && Split(Join(parts[..3], COLON), COLON) == parts[..3]
  {
    var parts := Split(raw, COLON);
    PartsHaveNoSeparator(raw, COLON);
    JoinSplit(raw, COLON);
    var a, b, c, d := parts[0], parts[1], parts[2], parts[3];
    assert parts == [a, b, c, d] && parts[..3] == [a, b, c];
    JoinThree(a, b, c);
    JoinFour(a, b, c, d);
    SplitAtFirst(a, b + [COLON] + c, COLON);
    SplitAtFirst(b, c, COLON);
    SplitWithout(c, COLON);
    assert a + [COLON] + (b + [COLON] + c) == Join([a, b, c], COLON);
  }

  lemma SignedParts(payload: Bytes, signature: Bytes)
    requires |Split(payload, COLON)| == 3 && COLON !in signature
    ensures Split(payload + [COLON] + signature, COLON) == Split(payload, COLON) + [signature]
    ensures Join(Split(payload, COLON), COLON) == payload
  {
    hide Split;
    hide Join;
    var parts := Split(payload, COLON);
    PartsHaveNoSeparator(payload, COLON);
    JoinSplit(payload, COLON);
    var a, b, c := parts[0], parts[1], parts[2];
    assert parts == [a, b, c];
    JoinThree(a, b, c);
    SplitThree(a, b, c, signature);
    Regrouped(a, b, c, signature);
  }

  lemma SplitThree(a: Bytes, b: Bytes, c: Bytes, d: Bytes)
    requires COLON !in a && COLON !in b && COLON !in c && COLON !in d
    ensures Split(a + [COLON] + (b + [COLON] + (c + [COLON] + d)), COLON) == [a, b, c, d]
  {
    hide Split;
    SplitWithout(d, COLON);
    SplitAtFirst(c, d, COLON);
    SplitAtFirst(b, c + [COLON] + d, COLON);
    SplitAtFirst(a, b + [COLON] + (c + [COLON] + d), COLON);
  }

  lemma Regrouped(a: Bytes, b: Bytes, c: Bytes, d: Bytes)
    ensures a + [COLON] + (b + [COLON] + c) + [COLON] + d == a + [COLON] + (b + [COLON] + (c + [COLON] + d))
  {
  }

  lemma JoinThree(a: Bytes, b: Bytes, c: Bytes)
    ensures Join([a, b, c], COLON) == a + [COLON] + (b + [COLON] + c)
  {
    assert Join([b, c], COLON) == b + [COLON] + c by {
      assert [b, c][1..] == [c];
    }
    assert [a, b, c][1..] == [b, c];
  }

  lemma JoinFour(a: Bytes, b: Bytes, c: Bytes, d: Bytes)
    ensures Join([a, b, c, d], COLON) == a + [COLON] + (b + [COLON] + c) + [COLON] + d
  {
    assert [a, b, c, d][1..] == [b, c, d];
    JoinThree(b, c, d);
    assert a + [COLON] + (b + [COLON] + (c + [COLON] + d)) == a + [COLON] + (b + [COLON] + c) + [COLON] + d;
  }

  lemma {:induction false} PartsHaveNoSeparator(s: Bytes, sep: byte)
    ensures forall i :: 0 <= i < |Split(s, sep)| ==> sep !in Split(s, sep)[i]
  {
    if s != [] {
      PartsHaveNoSeparator(s[1..], sep);
    }
  }

  // Every verdict on a text of four fields, in the order of the tests.
  lemma VerdictOfFields(hmac: Hmac, m: TokenManager, token: Bytes, now: int, id: Bytes, name: Bytes, expiry: Bytes,
                        signature: Bytes)
    requires 58 !in id && 58 !in name && 58 !in expiry && 58 !in signature
    requires Decode64(token) == Some(id + [58] + (name + [58] + (expiry + [58] + signature)))
    ensures var payload := id + [58] + (name + [58] + expiry);
            Verify(hmac, m, token, now)
            == if signature != HexEncode(hmac(m.secret, payload)) then Rejected(InvalidSignature)
               else if ParseInt(expiry) == None then Rejected(InvalidExpiration)
               else if now / 1_000_000_000 > ParseInt(expiry).value then Rejected(Expired)
               else if ParseInt(id) == None then Rejected(InvalidUserId)
               else Accepted(User(ParseInt(id).value, name))
  {
    hide Split;
    hide Join;
    hide ParseInt;
    SplitThree(id, name, expiry, signature);
    JoinThree(id, name, expiry);
    assert [id, name, expiry, signature][..3] == [id, name, expiry];
  }

  // And on every other text: no encoding, or not three colons.
  lemma VerdictOfOthers(hmac: Hmac, m: TokenManager, token: Bytes, now: int)
    ensures Verify(hmac, m, token, now) == Rejected(InvalidEncoding) <==> Decode64(token) == None
    ensures Verify(hmac, m, token, now) == Rejected(InvalidToken)
      <==> Decode64(token).Some? && Count(Decode64(token).value, 58) != 3
  {
    hide Split;
    hide ParseInt;
    hide Decode64;
    if Decode64(token).Some? {
      SplitCount(Decode64(token).value, COLON);
    }
  }

  // Different (id, name, expiry) triples never share a payload, even when names
  // contain colons: the outer fields cannot.
  lemma PayloadInjective(user: User, expires: int, user': User, expires': int)
    requires IsInt64(user.id) && IsInt64(expires) && IsInt64(user'.id) && IsInt64(expires')
    requires Payload(user, expires) == Payload(user', expires')
    ensures user == user' && expires == expires'
  {
    hide FormatInt;
    hide ParseInt;
    IntRoundTrip(user.id);
    IntRoundTrip(user'.id);
    IntRoundTrip(expires);
    IntRoundTrip(expires');
    var rest, rest' := user.username + [COLON] + FormatInt(expires), user'.username + [COLON] + FormatInt(expires');
    assert Payload(user, expires) == FormatInt(user.id) + [COLON] + rest;
    assert Payload(user', expires') == FormatInt(user'.id) + [COLON] + rest';
    FirstSeparator(FormatInt(user.id), rest, FormatInt(user'.id), rest', COLON);
    LastSeparator(user.username, FormatInt(expires), user'.username, FormatInt(expires'), COLON);
  }

  lemma FirstSeparator(a: Bytes, x: Bytes, b: Bytes, y: Bytes, sep: byte)
    requires sep !in a && sep !in b && a + [sep] + x == b + [sep] + y
    ensures a == b && x == y
  {
    var s := a + [sep] + x;
    assert s[|a|] == sep && s[|b|] == sep;
    assert forall i :: 0 <= i < |a| ==> s[i] == a[i];
    assert forall i :: 0 <= i < |b| ==> s[i] == b[i];
    assert |a| == |b|;
    assert a == s[..|a|] && b == s[..|b|];
    assert x == s[|a| + 1..] && y == s[|b| + 1..];
  }

  lemma LastSeparator(x: Bytes, a: Bytes, y: Bytes, b: Bytes, sep: byte)
    requires sep !in a && sep !in b && x + [sep] + a == y + [sep] + b
    ensures a == b && x == y
  {
    var s := x + [sep] + a;
    assert s[|x|] == sep && s[|y|] == sep;
    assert forall i :: |x| < i < |s| ==> s[i] == a[i - |x| - 1];
    assert forall i :: |y| < i < |s| ==> s[i] == b[i - |y| - 1];
    assert |x| == |y|;
    assert x == s[..|x|] && y == s[..|y|];
    assert a == s[|x| + 1..] && b == s[|y| + 1..];
  }

  // ---- passwords

  const ROUNDS: nat := 10000

  function Rounds(sha: Sha, salt: Bytes, sum: Bytes, n: nat): Bytes {
    if n == 0 then sum else sha(Rounds(sha, salt, sum, n - 1) + salt)
  }

  function Digest(sha: Sha, salt: Bytes, password: Bytes): Bytes {
    Rounds(sha, salt, sha(salt + password), ROUNDS)
  }

  // The chain of hashes behind a digest: salt and password first, then ten
  // thousand times the last hash and the salt.
  ghost predicate Stretches(sha: Sha, salt: Bytes, password: Bytes, sum: Bytes, chain: seq<Bytes>) {
    && |chain| == 10001 && chain[0] == sha(salt + password) && chain[10000] == sum
    && forall i :: 0 <= i < 10000 ==> chain[i + 1] == sha(chain[i] + salt)
  }

  lemma {:induction false} RoundsChain(sha: Sha, salt: Bytes, first: Bytes, n: nat) returns (chain: seq<Bytes>)
    ensures |chain| == n + 1 && chain[0] == first && chain[n] == Rounds(sha, salt, first, n)
    ensures forall i :: 0 <= i < n ==> chain[i + 1] == sha(chain[i] + salt)
  {
    if n == 0 {
      chain := [first];
    } else {
      chain := RoundsChain(sha, salt, first, n - 1);
      chain := chain + [Rounds(sha, salt, first, n)];
    }
  }

  lemma {:induction false} ChainIsUnique(sha: Sha, salt: Bytes, chain: seq<Bytes>, chain': seq<Bytes>, n: nat)
    requires n < |chain| && n < |chain'| && chain[0] == chain'[0]
    requires forall i :: 0 <= i < n ==> chain[i + 1] == sha(chain[i] + salt) && chain'[i + 1] == sha(chain'[i] + salt)
    ensures chain[n] == chain'[n]
  {
    if n > 0 {
      ChainIsUnique(sha, salt, chain, chain', n - 1);
    }
  }

  lemma DigestIsStretched(sha: Sha, salt: Bytes, password: Bytes, sum: Bytes)
    ensures sum == Digest(sha, salt, password) <==> exists chain :: Stretches(sha, salt, password, sum, chain)
  {
    hide Rounds;
    var chain := RoundsChain(sha, salt, sha(salt + password), ROUNDS);
    assert Stretches(sha, salt, password, Digest(sha, salt, password), chain);
    forall chain' | Stretches(sha, salt, password, sum, chain')
      ensures sum == Digest(sha, salt, password)
    {
      ChainIsUnique(sha, salt, chain, chain', 10000);
    }
  }

  // The stretching loop, with the running hash's input made explicit.
  method PasswordDigest(sha: Sha, salt: Bytes, password: Bytes) returns (sum: Bytes)
    ensures sum == Digest(sha, salt, password)
    ensures exists chain :: Stretches(sha, salt, password, sum, chain)
  {
    var h := salt + password;
    ghost var first := sha(h);
    sum := sha(h);
    var i := 0;
    while i < ROUNDS
      invariant 0 <= i <= ROUNDS
      invariant sum == Rounds(sha, salt, first, i)
    {
      h := [];
      h := h + sum;
      h := h + salt;
      assert h == Rounds(sha, salt, first, i) + salt;
      sum := sha(h);
      i := i + 1;
    }
    DigestIsStretched(sha, salt, password, sum);
  }

  method HashPassword(sha: Sha, salt: Option<Bytes>, password: Bytes) returns (encoded: Option<Bytes>)
    ensures encoded == if salt.None? then None else Some(Encoded(sha, salt.value, password))
  {
    if salt.None? {
      return None;
    }
    var sum := PasswordDigest(sha, salt.value, password);
    return Some(HexEncode(salt.value) + [COLON] + HexEncode(sum));
  }

  function Encoded(sha: Sha, salt: Bytes, password: Bytes): Bytes {
    HexEncode(salt) + [COLON] + HexEncode(Digest(sha, salt, password))
  }

  function Checks(sha: Sha, encoded: Bytes, password: Bytes): bool {
    var parts := Split(encoded, COLON);
    if |parts| != 2 then false
    else
      var salt, expected := HexDecode(parts[0]), HexDecode(parts[1]);
      salt.Some? && expected.Some? && expected.value == Digest(sha, salt.value, password)
  }

  method CheckPassword(sha: Sha, encoded: Bytes, password: Bytes) returns (ok: bool)
    ensures ok == Checks(sha, encoded, password)
  {
    var parts := Split(encoded, COLON);
    if |parts| != 2 {
      return false;
    }
    var salt := HexDecode(parts[0]);
    if salt.None? {
      return false;
    }
    var expected := HexDecode(parts[1]);
    if expected.None? {
      return false;
    }
    var actual := PasswordDigest(sha, salt.value, password);
    return expected.value == actual;
  }

  // A stored hash accepts a password exactly when it has the same digest under
  // the stored salt; in particular its own.
  lemma HashCheck(sha: Sha, salt: Bytes, password: Bytes, attempt: Bytes)
    ensures Checks(sha, Encoded(sha, salt, password), attempt)
      <==> Digest(sha, salt, attempt) == Digest(sha, salt, password)
  {
    var digest := Digest(sha, salt, password);
    HexRoundTrip(salt);
    HexRoundTrip(digest);
    SplitAtFirst(HexEncode(salt), HexEncode(digest), COLON);
    SplitWithout(HexEncode(digest), COLON);
  }

  // What is stored is the salt and the stretched password in hex, a colon between
  // them; an attempt passes exactly when it stretches to the same hash.
  lemma StoredHash(sha: Sha, salt: Bytes, password: Bytes, attempt: Bytes, sum: Bytes, chain: seq<Bytes>)
    requires Stretches(sha, salt, password, sum, chain)
    ensures Encoded(sha, salt, password) == HexEncode(salt) + [58] + HexEncode(sum)
    ensures Checks(sha, Encoded(sha, salt, password), attempt)
      <==> exists chain' :: Stretches(sha, salt, attempt, sum, chain')
  {
    hide Stretches;
    DigestIsStretched(sha, salt, password, sum);
    DigestIsStretched(sha, salt, attempt, sum);
    HashCheck(sha, salt, password, attempt);
  }

  lemma LowerText(s: Bytes, salt: Bytes, sum: Bytes)
    requires Lower(s) == HexEncode(salt) + [58] + HexEncode(sum)
    ensures |HexEncode(salt)| < |s|
    ensures var n := |HexEncode(salt)|;
      && s == s[..n] + [58] + s[n + 1..] && 58 !in s[..n] && 58 !in s[n + 1..]
      && Lower(s[..n]) == HexEncode(salt) && Lower(s[n + 1..]) == HexEncode(sum)
  {
    HexRoundTrip(salt);
    HexRoundTrip(sum);
    hide HexEncode;
    hide HexDecode;
    var n := |HexEncode(salt)|;
    assert Lower(s)[n] == 58 && Lower(s)[..n] == HexEncode(salt) && Lower(s)[n + 1..] == HexEncode(sum);
    assert Lower(s[..n]) == Lower(s)[..n] && Lower(s[n + 1..]) == Lower(s)[n + 1..];
    NoColon(s[..n]);
    NoColon(s[n + 1..]);
  }

  lemma NoColon(s: Bytes)
    ensures 58 in s <==> 58 in Lower(s)
  {
    forall i | 0 <= i < |s|
      ensures s[i] == 58 <==> Lower(s)[i] == 58
    {
    }
    if 58 in s {
      var i :| 0 <= i < |s| && s[i] == 58;
      assert Lower(s)[i] == 58;
    }
  }

  // Which stored texts accept which passwords: in either case of the letters, the
  // hex of some salt, a colon and the hex of what the password stretches to.
  lemma ChecksIff(sha: Sha, encoded: Bytes, password: Bytes)
    ensures Checks(sha, encoded, password)
      <==> exists salt, sum, chain ::
             Stretches(sha, salt, password, sum, chain) && Lower(encoded) == HexEncode(salt) + [58] + HexEncode(sum)
  {
    hide Stretches;
    hide Digest;
    hide Split;
    hide Lower;
    hide HexDecode;
    hide HexEncode;
    if Checks(sha, encoded, password) {
      var parts := Split(encoded, COLON);
      var salt, sum := HexDecode(parts[0]).value, HexDecode(parts[1]).value;
      CheckedText(encoded);
      HexDecodeIff(parts[0], salt);
      HexDecodeIff(parts[1], sum);
      DigestIsStretched(sha, salt, password, sum);
      var chain :| Stretches(sha, salt, password, sum, chain);
    }
    forall salt, sum, chain | Stretches(sha, salt, password, sum, chain)
                              && Lower(encoded) == HexEncode(salt) + [58] + HexEncode(sum)
      ensures Checks(sha, encoded, password)
    {
      var n := |HexEncode(salt)|;
      LowerText(encoded, salt, sum);
      SplitAtFirst(encoded[..n], encoded[n + 1..], COLON);
      SplitWithout(encoded[n + 1..], COLON);
      HexDecodeIff(encoded[..n], salt);
      HexDecodeIff(encoded[n + 1..], sum);
      DigestIsStretched(sha, salt, password, sum);
    }
  }

  // A text of two fields in lower case.
  lemma CheckedText(s: Bytes)
    requires |Split(s, COLON)| == 2
    ensures Lower(s) == Lower(Split(s, COLON)[0]) + [58] + Lower(Split(s, COLON)[1])
  {
    hide Split;
    var parts := Split(s, COLON);
    JoinSplit(s, COLON);
    assert parts == [parts[0], parts[1]] && parts[1..] == [parts[1]];
    assert s == parts[0] + [COLON] + parts[1];
  }
}
