// The octets of a session protocol data unit, written out as IEC 61850-90-5
// lays them out (rsession/spdu.go).

module SpduWire {
  import opened Options
  import opened Octets
  import opened Ber
  import opened SessionKeys
  import opened Wire
  import S = Spdu

  // Type, simulation flag, APPID and APDU length, then the APDU.
  function PayloadElement(p: S.Payload): Bytes
  {
    [p.kind, if p.simulation then 1 else 0] + Number16(p.appID) + Number16(|p.apdu|) + p.apdu
  }

  function PayloadElements(ps: seq<S.Payload>): Bytes
  {
    if ps == [] then [] else PayloadElement(ps[0]) + PayloadElements(ps[1..])
  }

  // The security information: of version 1 with the algorithms, of version 2 with
  // the initialisation vector.
  function Security(version: uint16, key: Option<Key>, iv: Bytes): Bytes
  {
    var id := if key.Some? then key.value.id else 0;
    if version == 1 then (if key.Some? then [key.value.sec, key.value.sig] else [0, 0]) + Number32(id)
    else if key.Some? && key.value.sec != 0 then Number32(id) + ([12] + iv)
    else Number32(id) + [0]
  }

  // Everything before the user data. length is the SPDU length and user that of
  // the user data.
  function SessionHeader(s: S.SPDU, key: Option<Key>, iv: Bytes, length: nat, user: nat): Bytes
  {
    var version := if s.version == 0 then 2 else s.version;
    var security := Security(version, key, iv);
    var current := if key.Some? then key.value.timeOfCurrentKey else 0;
    var next: int := if key.Some? then key.value.timeToNextKey else 0;
    [0x01, 0x40, s.si, (18 + |security|) % 0x100, 0x80, 0x0a]
    + (Number32(length) + (Number32(s.number) + Number16(version)))
    + ((Number32(current) + Number16(if next < 0 then next + 0x1_0000 else next)) + (security + Number32(user)))
  }

  // The octets of a signature: 80, 128 or 256 bits.
  function SignatureLength(key: Key): byte
  {
    if key.sec != 0 then 16
    else
      match key.sig
      case 1 => 10
      case 2 => 16
      case 3 => 32
      case 6 => 10
      case 7 => 16
      case 8 => 32
      case _ => 0
  }

  // The user data and what vouches for them: nothing; a MAC over everything before
  // it; or the tag that sealing them gives, with the header as additional data.
  ghost predicate IsBody(body: Bytes, head: Bytes, user: Bytes, key: Option<Key>, iv: Bytes, c: S.Crypto)
    requires S.Lawful(c)
  {
    if key.None? then body == user
    else
      var n := SignatureLength(key.value);
      && |body| == |user| + 2 + n
      && body[|user|..|user| + 2] == [0x85, n]
      && if key.value.sec != 0 then body[..|user|] + body[|user| + 2..] == c.seal(key.value, iv, user, head)
         else body[..|user|] == user && body[|user| + 2..] == c.mac(key.value, head + user)
  }

  lemma {:induction false} PayloadsOnWire(ps: seq<S.Payload>)
    ensures S.UserData(ps) == PayloadElements(ps)
    decreases |ps|
  {
    hide ToBE;
    if ps != [] {
      Octets2(ps[0].appID);
      Octets2(|ps[0].apdu|);
      PayloadsOnWire(ps[1..]);
    }
  }

  lemma SecurityOnWire(version: uint16, key: Option<Key>, iv: Bytes)
    requires |iv| == 12
    ensures S.SecurityInfo(version, key, iv) == Security(version, key, iv)
  {
    hide ToBE;
    Octets4(S.KeyIDOf(key));
  }

  lemma CommonOnWire(s: S.SPDU, hdrLen: nat, total: nat)
    requires total >= 10
    ensures
      S.CommonHeader(s, hdrLen, total) ==
      [0x01, 0x40, s.si, hdrLen % 0x100, 0x80, 0x0a]
      + (Number32(total - 10) + (Number32(s.number) + Number16(if s.version == 0 then 2 else s.version)))
  {
    hide ToBE;
    Octets4(total - 10);
    Octets4(s.number);
    Octets2(S.EffectiveVersion(s));
  }

  lemma TimesOnWire(key: Option<Key>)
    ensures
      var next: int := if key.Some? then key.value.timeToNextKey else 0;
      S.KeyTimes(key) ==
      Number32(if key.Some? then key.value.timeOfCurrentKey else 0)
      + Number16(if next < 0 then next + 0x1_0000 else next)
  {
    hide ToBE;
    Octets4(0);
    Octets2(0);
    if key.Some? {
      Octets4(key.value.timeOfCurrentKey);
      Octets2(S.ToUint16(key.value.timeToNextKey));
    }
  }

  function Trailer(key: Option<Key>): nat { if key.None? then 0 else 2 + SignatureLength(key.value) as int }

  lemma HeaderOnWire(s: S.SPDU, key: Option<Key>, iv: Bytes)
    requires |iv| == 12 && S.MarshalError(s, key).None?
    ensures
      var user := PayloadElements(s.payloads);
      var h := S.Header(s, key, iv);
      h == SessionHeader(s, key, iv, |h| + |user| + Trailer(key) - 10, |user|)
  {
    hide ToBE, Security, S.SecurityInfo, S.KeyTimes, S.CommonHeader, S.UserData, PayloadElements, Number16, Number32;
    var version := S.EffectiveVersion(s);
    var n := |S.UserData(s.payloads)|;
    PayloadsOnWire(s.payloads);
    SecurityOnWire(version, key, iv);
    SecurityLength(version, key, iv);
    TimesOnWire(key);
    Octets4(n);
    assert ToBE(n, 4) == Number32(n) by { NumberIs(n); }
    CommonOnWire(s, 18 + |Security(version, key, iv)|, 26 + |Security(version, key, iv)| + n + Trailer(key));
  }

  lemma NumberIs(n: nat)
    ensures ToBE(n, 4) == Number32(n)
  {
    hide ToBE;
    Octets4(n);
  }

  lemma SecurityLength(version: uint16, key: Option<Key>, iv: Bytes)
    requires |iv| == 12
    ensures |Security(version, key, iv)| == if version == 1 then 6 else 5 + |S.IVOf(key, iv)|
  {}

  lemma BodyOnWire(head: Bytes, user: Bytes, key: Option<Key>, iv: Bytes, c: S.Crypto)
    requires S.Lawful(c) && (key.Some? ==> Validate(key.value).Valid?)
    ensures IsBody(S.Body(head, user, key, iv, c), head, user, key, iv, c)
    ensures |S.Body(head, user, key, iv, c)| == |user| + Trailer(key)
  {
    var body := S.Body(head, user, key, iv, c);
    if key.Some? && key.value.sec != 0 {
      var sealed := c.seal(key.value, iv, user, head);
      assert body[..|user|] == sealed[..|user|] && body[|user| + 2..] == sealed[|user|..];
    } else if key.Some? {
      assert body[..|user|] == user && body[|user| + 2..] == c.mac(key.value, head + user);
    }
  }

  // Every SPDU that can be encoded goes out as this header and body. The SPDU
  // length is the number of octets that follow it, and the session header length
  // leads to the length of the user data.
  lemma SpduOnWire(s: S.SPDU, key: Option<Key>, iv: Bytes, c: S.Crypto) returns (body: Bytes, length: nat)
    requires S.Lawful(c) && |iv| == 12 && S.MarshalError(s, key).None?
    ensures
      var user := PayloadElements(s.payloads);
      var head := SessionHeader(s, key, iv, length, |user|);
      && S.Marshal(s, key, iv, c) == S.Ok(head + body)
      && |head + body| == 10 + length
      && |head| >= 10 && |head| == head[3] as int + 8
      && IsBody(body, head, user, key, iv, c)
  {
    hide S.Header, S.Body, S.UserData, PayloadElements, SessionHeader, IsBody, S.Lawful, Validate, SignatureLength;
    var user := PayloadElements(s.payloads);
    var head := S.Header(s, key, iv);
    PayloadsOnWire(s.payloads);
    HeaderOnWire(s, key, iv);
    KeyIsValid(s, key);
    body := S.Body(head, user, key, iv, c);
    BodyOnWire(head, user, key, iv, c);
    HeaderAtLeast(s, key, iv);
    length := |head| + |user| + Trailer(key) - 10;
    HeaderLengths(s, key, iv, length, |user|);
  }

  lemma HeaderAtLeast(s: S.SPDU, key: Option<Key>, iv: Bytes)
    ensures |S.Header(s, key, iv)| >= 10
  {
    hide S.SecurityInfo, S.UserData, ToBE;
  }

  // A key an SPDU can be secured with: it has an identifier, and either an
  // encryption algorithm and a key of its length, or a supported authentication
  // algorithm and at least 128 bits of key.
  predicate Usable(k: Key)
  {
    && k.id != 0
    && if k.sec != 0 then
         k.sig == 0 && ((k.sec == 1 && |k.material| == 16) || (k.sec == 2 && |k.material| == 32))
       else k.sig in {1, 2, 3, 6, 7, 8} && |k.material| >= 16
  }

  // What is refused, and for what.
  lemma RefusedExactly(s: S.SPDU, key: Option<Key>)
    ensures
      var e := S.MarshalError(s, key);
      if s.version > 2 then e == Some(S.Version)
      else if key.Some? && !Usable(key.value) then e.Some? && e.value.BadKey?
      else if key.Some? && s.version == 1 && key.value.sec != 0 then e == Some(S.Version1Encrypt)
      else if exists p | p in s.payloads :: |p.apdu| > 65535 then e == Some(S.TooLong)
      else e == None
  {}

  lemma KeyIsValid(s: S.SPDU, key: Option<Key>)
    requires S.MarshalError(s, key).None?
    ensures key.Some? ==> Validate(key.value).Valid?
  {}

  lemma HeaderLengths(s: S.SPDU, key: Option<Key>, iv: Bytes, length: nat, user: nat)
    requires |iv| == 12
    ensures var h := SessionHeader(s, key, iv, length, user); |h| >= 10 && h[3] as int + 8 == |h|
  {
    hide Number16, Number32;
  }

  // What the decoder takes, said of the octets

  // An element of the user data, the last of which may count the two octets of its
  // own length field.
  ghost predicate ArePayloads(user: Bytes, ps: seq<S.Payload>)
    decreases |ps|
  {
    if ps == [] then user == []
    else
      var p := ps[0];
      && |user| >= 6 + |p.apdu|
      && p.kind == user[0] && (p.simulation <==> user[1] != 0) && p.appID == Weighed(user[2..4])
      && p.apdu == user[6..6 + |p.apdu|]
      && (Weighed(user[4..6]) == |p.apdu| || (Weighed(user[4..6]) == |p.apdu| + 2 && |user| == 6 + |p.apdu|))
      && ArePayloads(user[6 + |p.apdu|..], ps[1..])
  }

  // The security information names no key, or one the receiver holds with the
  // algorithms and the vector it needs.
  ghost predicate IsSecurity(b: Bytes, version: int, keyID: int, keys: S.KeyMap)
    requires |b| >= 22
  {
    if version == 1 then
      && |b| >= 28 && keyID == Weighed(b[24..28])
      && if keyID == 0 then b[22] == 0 && b[23] == 0
         else keyID in keys && b[22] == keys[keyID].sec && b[23] == keys[keyID].sig
    else
      && |b| >= 27 && |b| >= 27 + b[26] as int && keyID == Weighed(b[22..26])
      && (keyID != 0 ==> keyID in keys && (keys[keyID].sec != 0 ==> b[26] == 12))
  }

  // The three lengths of the header are not looked at.
  ghost predicate IsHeader(b: Bytes, s: S.SPDU, keys: S.KeyMap)
  {
    && |b| >= 22 && b[0] == 0x01 && b[1] == 0x40 && s.si == b[2] && b[4] == 0x80
    && s.number == Weighed(b[10..14]) && s.version == Weighed(b[14..16]) && (s.version == 1 || s.version == 2)
    && s.timeOfCurrentKey == Weighed(b[16..20]) && TwosComplement(b[20..22], s.timeToNextKey)
    && IsSecurity(b, s.version, s.keyID, keys)
  }

  // The user data lie where the header says, and nothing or a signature follows.
  ghost predicate IsSecured(b: Bytes, s: S.SPDU, keys: S.KeyMap, user: Bytes, c: S.Crypto)
  {
    && |b| >= 27 && S.UserStart(b) <= |b| && S.UserEnd(b) <= |b|
    && if s.keyID == 0 then !s.signed && !s.encrypted && S.UserEnd(b) == |b| && user == b[S.UserStart(b)..]
       else
         && s.keyID in keys && s.signed == (keys[s.keyID].sec == 0) && s.encrypted == !s.signed
         && S.Vouched(
              b, S.UserStart(b), S.UserEnd(b), S.SignatureAt(b, S.UserEnd(b)), keys[s.keyID], S.Vector(b), user, c)
  }

  lemma {:induction false} PayloadsExactly(user: Bytes, ps: seq<S.Payload>)
    ensures S.ParsePayloads(user, true) == S.Ok(ps) <==> ArePayloads(user, ps)
    decreases |user|
  {
    hide S.ParsePayload, Weighed;
    if user != [] && ps != [] {
      PayloadExactly(user, ps[0]);
      assert ps == [ps[0]] + ps[1..];
      var r := S.ParsePayload(user, true);
      if r.PayloadGot? {
        PayloadsExactly(r.rest, ps[1..]);
        var more := S.ParsePayloads(r.rest, true);
        if more.Ok? {
          assert ([r.payload] + more.value)[1..] == more.value;
        }
      }
    }
  }

  lemma PayloadExactly(user: Bytes, p: S.Payload)
    ensures
      S.ParsePayload(user, true).PayloadGot? && S.ParsePayload(user, true).payload == p <==>
      && |user| >= 6 + |p.apdu|
      && p.kind == user[0] && (p.simulation <==> user[1] != 0) && p.appID == Weighed(user[2..4])
      && p.apdu == user[6..6 + |p.apdu|]
      && (Weighed(user[4..6]) == |p.apdu| || (Weighed(user[4..6]) == |p.apdu| + 2 && |user| == 6 + |p.apdu|))
    ensures
      var r := S.ParsePayload(user, true);
      r.PayloadGot? ==> |r.payload.apdu| + 6 <= |user| && r.rest == user[6 + |r.payload.apdu|..]
  {
    hide BE, Weighed;
    if |user| >= 6 {
      BEWeighs(user[2..4]);
      BEWeighs(user[4..6]);
    }
  }

  lemma SecurityExactly(b: Bytes, version: int, keyID: uint32, keys: S.KeyMap)
    requires |b| >= 22 && (version == 1 || version == 2)
    ensures
      var r := if version == 1 then S.ParseSecInfo1(b, keys) else S.ParseSecInfo2(b, keys);
      && (r.Ok? && r.value.keyID == keyID <==> IsSecurity(b, version, keyID, keys))
      && (r.Ok? ==>
        && r.value.key == (if r.value.keyID == 0 then None else S.Lookup(keys, r.value.keyID))
        && |b| >= 27 && r.value.end == (if version == 1 then 28 else 27 + b[26] as int)
        && r.value.iv == (if version == 1 then [] else b[27..r.value.end]))
  {
    hide BE, Weighed;
    if |b| >= 28 {
      BEWeighs(b[24..28]);
    }
    if |b| >= 27 {
      BEWeighs(b[22..26]);
    }
  }

  // timeToNextKey is two octets in two's complement.
  lemma NextKeyTime(b: Bytes, n: int16)
    requires |b| >= 22
    ensures S.ToInt16(S.BEWord(b)) == n <==> TwosComplement(b[20..22], n)
  {
    var c := b[20..22];
    BE2(c);
    BEWeighs(c);
    assert Place(2) == 0x1_0000 by { assert Place(1) == 0x100; }
  }

  lemma UserExactly(b: Bytes, info: S.SecInfo, user: Bytes, c: S.Crypto)
    requires |b| >= 27 && info.end <= |b| && S.UserStart(b) == info.end + 4
    ensures
      S.ParseUser(b, info, c) == S.Ok(user) <==>
      && S.UserStart(b) <= |b| && S.UserEnd(b) <= |b|
      && if info.key.None? then S.UserEnd(b) == |b| && user == b[S.UserStart(b)..]
         else
           S.Vouched(
             b, S.UserStart(b), S.UserEnd(b), S.SignatureAt(b, S.UserEnd(b)), info.key.value, info.iv, user, c)
  {
    hide BE, S.Verify, S.Vouched, S.UserStart, S.SignatureAt;
    if S.UserStart(b) <= |b| {
      assert b[S.UserStart(b)..|b|] == b[S.UserStart(b)..];
    }
    if S.UserStart(b) <= |b| && S.UserEnd(b) <= |b| && info.key.Some? {
      S.VerifiedIsAuthentic(b, S.UserStart(b), S.UserEnd(b), info.key.value, info.iv, user, c);
    }
  }

  // Version, key identifier and user data, whatever the rest of the header.
  lemma FieldsExactly(b: Bytes, s: S.SPDU, keys: S.KeyMap)
    requires |b| >= 22
    ensures
      var version := BE(b[14..16]);
      var info := if version == 1 then S.ParseSecInfo1(b, keys) else S.ParseSecInfo2(b, keys);
      IsHeader(b, s, keys) <==>
      && b[0] == 0x01 && b[1] == 0x40 && b[4] == 0x80 && (version == 1 || version == 2)
      && s.si == b[2] && s.number == BE(b[10..14]) && s.version == version
      && s.timeOfCurrentKey == BE(b[16..20]) && s.timeToNextKey == S.ToInt16(S.BEWord(b))
      && info.Ok? && info.value.keyID == s.keyID
  {
    hide BE, Weighed, TwosComplement, S.ParseSecInfo1, S.ParseSecInfo2, IsSecurity, S.BEWord;
    BEWeighs(b[10..14]);
    BEWeighs(b[14..16]);
    BEWeighs(b[16..20]);
    NextKeyTime(b, s.timeToNextKey);
    if BE(b[14..16]) == 1 || BE(b[14..16]) == 2 {
      SecurityExactly(b, BE(b[14..16]), s.keyID, keys);
    }
  }

  // The decoder takes exactly the octets that are an SPDU the receiver can verify,
  // and gives it.
  lemma SpduExactly(b: Bytes, keys: S.KeyMap, c: S.Crypto, s: S.SPDU)
    ensures
      S.Unmarshal(b, keys, c) == S.Ok(s) <==>
      IsHeader(b, s, keys) && exists user :: IsSecured(b, s, keys, user, c) && ArePayloads(user, s.payloads)
  {
    hide IsHeader, IsSecured, ArePayloads, S.Unmarshal;
    if S.Unmarshal(b, keys, c) == S.Ok(s) {
      SpduTaken(b, keys, c, s);
    }
    forall user | IsHeader(b, s, keys) && IsSecured(b, s, keys, user, c) && ArePayloads(user, s.payloads)
      ensures S.Unmarshal(b, keys, c) == S.Ok(s)
    {
      SpduGiven(b, keys, c, s, user);
    }
  }

  lemma SpduTaken(b: Bytes, keys: S.KeyMap, c: S.Crypto, s: S.SPDU)
    requires S.Unmarshal(b, keys, c) == S.Ok(s)
    ensures IsHeader(b, s, keys) && exists user :: IsSecured(b, s, keys, user, c) && ArePayloads(user, s.payloads)
  {
    hide IsHeader, ArePayloads, S.ParsePayloads, S.ParseSecInfo1, S.ParseSecInfo2, S.ParseUser, BE, S.Vouched;
    hide S.UserStart, S.UserEnd, S.SignatureAt, S.Vector;
    FieldsExactly(b, s, keys);
    var user := S.AcceptedIsAuthentic(b, keys, c);
    PayloadsExactly(user, s.payloads);
    assert IsSecured(b, s, keys, user, c);
  }

  lemma SpduGiven(b: Bytes, keys: S.KeyMap, c: S.Crypto, s: S.SPDU, user: Bytes)
    requires IsHeader(b, s, keys) && IsSecured(b, s, keys, user, c) && ArePayloads(user, s.payloads)
    ensures S.Unmarshal(b, keys, c) == S.Ok(s)
  {
    hide ArePayloads, S.ParsePayloads, S.ParseSecInfo1, S.ParseSecInfo2, S.ParseUser, BE, S.Vouched;
    hide IsHeader, IsSecurity, S.UserEnd, S.SignatureAt;
    HeaderIsLong(b, s, keys);
    FieldsExactly(b, s, keys);
    SecurityExactly(b, s.version, s.keyID, keys);
    var info := (if s.version == 1 then S.ParseSecInfo1(b, keys) else S.ParseSecInfo2(b, keys)).value;
    UserExactly(b, info, user, c);
    PayloadsExactly(user, s.payloads);
  }

  lemma HeaderIsLong(b: Bytes, s: S.SPDU, keys: S.KeyMap)
    requires IsHeader(b, s, keys)
    ensures |b| >= 27 && (s.version == 1 || s.version == 2) && IsSecurity(b, s.version, s.keyID, keys)
  {}
}
