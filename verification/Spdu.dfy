// The session protocol data unit of IEC 61850-90-5 (rsession/spdu.go).

module Spdu {
  import opened Options
  import opened Octets
  import opened BerPrimitives
  import opened BerElement
  import opened SessionKeys

  datatype Payload = Payload(kind: byte, simulation: bool, appID: uint16, apdu: Bytes)

  datatype SPDU = SPDU(
    si: byte,
    number: uint32,
    version: uint16,
    keyID: uint32,
    timeOfCurrentKey: uint32,
    timeToNextKey: int16,
    payloads: seq<Payload>,
    signed: bool,
    encrypted: bool)

  datatype Error =
    | Malformed
    | Version
    | UnknownKey
    | Algorithm
    | Authentication
    | Version1Encrypt
    | BadKey(reason: KeyError)
    | TooLong

  datatype Result<+T> = Ok(value: T) | Err(error: Error)

  const TAG_COMMON: byte := 0x80
  const TAG_SIGNATURE: byte := 0x85
  const TAG_PADDING: byte := 0xAF
  const COMMON_LEN: byte := 10
  const ELEMENT_HEADER := 6
  const GCM_IV_LEN := 12
  const GCM_TAG_LEN := 16

  // MAC and AEAD, of which only what makes them a MAC and an AEAD is used.
  datatype Crypto = Crypto(
    mac: (Key, Bytes) -> Bytes,
    seal: (Key, Bytes, Bytes, Bytes) -> Bytes,
    open: (Key, Bytes, Bytes, Bytes) -> Option<Bytes>)

  ghost predicate Lawful(c: Crypto)
  {
    && (forall k, d :: |c.mac(k, d)| == MacLen(k.sig))
    && (forall k, iv, p, a :: |c.seal(k, iv, p, a)| == |p| + GCM_TAG_LEN)
    && (forall k, iv, p, a :: c.open(k, iv, c.seal(k, iv, p, a), a) == Some(p))
  }

  function ToUint16(n: int16): uint16 { if n < 0 then n + 0x1_0000 else n }
  function ToInt16(n: uint16): int16 { if n < 0x8000 then n else n - 0x1_0000 }

  // Payload elements

  function PayloadOctets(p: Payload): (s: Bytes)
    ensures |s| == ELEMENT_HEADER + |p.apdu|
  {
    [p.kind, if p.simulation then 1 else 0] + ToBE(p.appID, 2) + ToBE(|p.apdu|, 2) + p.apdu
  }

  function UserData(ps: seq<Payload>): (s: Bytes)
  {
    if ps == [] then [] else PayloadOctets(ps[0]) + UserData(ps[1..])
  }

  datatype PayloadRead = PayloadGot(payload: Payload, rest: Bytes) | NoPayload

  // lenient accepts an element that counts the two octets of its own length
  // field, when it is the last.
  function ParsePayload(user: Bytes, lenient: bool): (r: PayloadRead)
    ensures r.PayloadGot? ==> |r.rest| + ELEMENT_HEADER <= |user|
  {
    if |user| < ELEMENT_HEADER then NoPayload
    else
      BEBounds(user[2..4]);
      var n := BE(user[4..6]);
      var rest := |user| - ELEMENT_HEADER;
      if n > rest && !(lenient && n == rest + 2) then NoPayload
      else
        var len := if n > rest then rest else n;
        PayloadGot(Payload(user[0], user[1] != 0, BE(user[2..4]), user[6..6 + len]), user[6 + len..])
  }

  function ParsePayloads(user: Bytes, lenient: bool): (r: Result<seq<Payload>>)
    decreases |user|
  {
    if user == [] then Ok([])
    else
      match ParsePayload(user, lenient)
      case NoPayload => Err(Malformed)
      case PayloadGot(p, rest) =>
        match ParsePayloads(rest, lenient)
        case Err(e) => Err(e)
        case Ok(ps) => Ok([p] + ps)
  }

  lemma PayloadRoundTrip(p: Payload, rest: Bytes, lenient: bool)
    requires |p.apdu| <= 0xffff
    ensures ParsePayload(PayloadOctets(p) + rest, lenient) == PayloadGot(p, rest)
  {
    hide ToBE, BE;
    var s := PayloadOctets(p) + rest;
    assert s[2..4] == ToBE(p.appID, 2) && s[4..6] == ToBE(|p.apdu|, 2);
    ShrGone(p.appID, 2);
    BEToBE(p.appID, 2);
    ShrGone(|p.apdu|, 2);
    BEToBE(|p.apdu|, 2);
    assert s[6..6 + |p.apdu|] == p.apdu && s[6 + |p.apdu|..] == rest;
  }

  // The payload list comes back, and the leniency has no part in it.
  lemma {:induction false} PayloadsRoundTrip(ps: seq<Payload>, lenient: bool)
    requires forall p | p in ps :: |p.apdu| <= 0xffff
    ensures ParsePayloads(UserData(ps), lenient) == Ok(ps)
    decreases ps
  {
    hide ParsePayload, PayloadOctets;
    if ps != [] {
      PayloadRoundTrip(ps[0], UserData(ps[1..]), lenient);
      PayloadsRoundTrip(ps[1..], lenient);
      assert ps == [ps[0]] + ps[1..];
    }
  }

  // On any user data the strict reading accepts, the lenient one agrees.
  lemma {:induction false} LeniencyIsHarmless(user: Bytes)
    requires ParsePayloads(user, false).Ok?
    ensures ParsePayloads(user, true) == ParsePayloads(user, false)
    decreases |user|
  {
    if user != [] {
      var r := ParsePayload(user, false);
      assert ParsePayload(user, true) == r;
      LeniencyIsHarmless(r.rest);
    }
  }

  // Encoding

  function EffectiveVersion(s: SPDU): uint16 { if s.version == 0 then 2 else s.version }

  function CommonHeader(s: SPDU, hdrLen: nat, total: int): (h: Bytes)
    ensures |h| == 16
  {
    [0x01, 0x40, s.si, hdrLen % 0x100, TAG_COMMON, COMMON_LEN]
    + (ToBE(total - 10, 4) + (ToBE(s.number, 4) + ToBE(EffectiveVersion(s), 2)))
  }

  function KeyTimes(key: Option<Key>): (h: Bytes)
    ensures |h| == 6
  {
    if key.None? then ToBE(0, 4) + ToBE(0, 2)
    else ToBE(key.value.timeOfCurrentKey, 4) + ToBE(ToUint16(key.value.timeToNextKey), 2)
  }

  function KeyIDOf(key: Option<Key>): uint32 { if key.None? then 0 else key.value.id }

  function IVOf(key: Option<Key>, iv: Bytes): Bytes { if key.Some? && key.value.sec != SEC_NONE then iv else [] }

  function SecurityInfo(version: uint16, key: Option<Key>, iv: Bytes): (h: Bytes)
  {
    if version == 1 then
      (if key.None? then [0, 0] else [key.value.sec, key.value.sig]) + ToBE(KeyIDOf(key), 4)
    else ToBE(KeyIDOf(key), 4) + ([|IVOf(key, iv)| % 0x100] + IVOf(key, iv))
  }

  function Header(s: SPDU, key: Option<Key>, iv: Bytes): (h: Bytes)
  {
    var version := EffectiveVersion(s);
    var secInfoLen := if version == 1 then 12 else 11 + |IVOf(key, iv)|;
    var trailer :=
      if key.None? then 0 else if key.value.sec != SEC_NONE then 2 + GCM_TAG_LEN else 2 + MacLen(key.value.sig);
    var hdrLen := 2 + COMMON_LEN + secInfoLen;
    var userLen := |UserData(s.payloads)|;
    CommonHeader(s, hdrLen, 4 + hdrLen + 4 + userLen + trailer)
    + (KeyTimes(key) + (SecurityInfo(version, key, iv) + ToBE(userLen, 4)))
  }

  // The body after the header: user data and trailer.
  function Body(head: Bytes, user: Bytes, key: Option<Key>, iv: Bytes, c: Crypto): (s: Bytes)
    requires Lawful(c)
  {
    if key.None? then user
    else if key.value.sec != SEC_NONE then
      var sealed := c.seal(key.value, iv, user, head);
      sealed[..|user|] + ([TAG_SIGNATURE, GCM_TAG_LEN] + sealed[|user|..])
    else
      var mac := c.mac(key.value, head + user);
      user + ([TAG_SIGNATURE, |mac|] + mac)
  }

  function MarshalError(s: SPDU, key: Option<Key>): (e: Option<Error>)
  {
    if EffectiveVersion(s) != 1 && EffectiveVersion(s) != 2 then Some(Version)
    else if key.Some? && Validate(key.value).Invalid? then Some(BadKey(Validate(key.value).error))
    else if key.Some? && EffectiveVersion(s) == 1 && key.value.sec != SEC_NONE then Some(Version1Encrypt)
    else if exists p | p in s.payloads :: |p.apdu| > 0xffff then Some(TooLong)
    else None
  }

  // iv is what the source of randomness supplies.
  function Marshal(s: SPDU, key: Option<Key>, iv: Bytes, c: Crypto): (r: Result<Bytes>)
    requires Lawful(c) && |iv| == GCM_IV_LEN
  {
    match MarshalError(s, key)
    case Some(e) => Err(e)
    case None =>
      var head := Header(s, key, iv);
      Ok(head + Body(head, UserData(s.payloads), key, iv, c))
  }

  // Decoding

  type KeyMap = m: map<uint32, Key> | forall id | id in m :: m[id].id == id witness map[]

  datatype SecInfo = SecInfo(keyID: uint32, key: Option<Key>, iv: Bytes, end: nat)

  function Lookup(keys: KeyMap, id: uint32): Option<Key> { if id in keys then Some(keys[id]) else None }

  function ParseSecInfo1(b: Bytes, keys: KeyMap): (r: Result<SecInfo>)
    requires |b| >= 22
    ensures r.Ok? ==> r.value.end <= |b|
  {
    if |b| < 28 then Err(Malformed)
    else
      BEBounds(b[24..28]);
      var keyID := BE(b[24..28]);
      if keyID == 0 then
        if b[22] != SEC_NONE || b[23] != SIG_NONE then Err(Malformed) else Ok(SecInfo(0, None, [], 28))
      else
        match Lookup(keys, keyID)
        case None => Err(UnknownKey)
        case Some(key) =>
          if b[22] != key.sec || b[23] != key.sig then Err(Algorithm) else Ok(SecInfo(keyID, Some(key), [], 28))
  }

  function ParseSecInfo2(b: Bytes, keys: KeyMap): (r: Result<SecInfo>)
    requires |b| >= 22
    ensures r.Ok? ==> r.value.end <= |b|
  {
    if |b| < 27 || |b| - 27 < b[26] then Err(Malformed)
    else
      BEBounds(b[22..26]);
      var keyID := BE(b[22..26]);
      var end: nat := 27 + b[26] as int;
      if keyID == 0 then Ok(SecInfo(0, None, b[27..end], end))
      else
        match Lookup(keys, keyID)
        case None => Err(UnknownKey)
        case Some(key) =>
          if key.sec != SEC_NONE && b[26] != GCM_IV_LEN then Err(Malformed)
          else Ok(SecInfo(keyID, Some(key), b[27..end], end))
  }

  // Padding may precede the signature.
  function SkipPadding(trailer: Bytes): (r: Result<Bytes>)
    ensures r.Ok? ==> |r.value| <= |trailer|
  {
    if |trailer| >= 2 && trailer[0] == TAG_PADDING then
      if trailer[1] > |trailer| - 2 then Err(Malformed) else Ok(trailer[2 + trailer[1] as int..])
    else Ok(trailer)
  }

  // The user data in the clear, once the trailer has been verified.
  function Verify(b: Bytes, userStart: nat, userEnd: nat, key: Key, iv: Bytes, c: Crypto): (r: Result<Bytes>)
    requires userStart <= userEnd <= |b|
  {
    match SkipPadding(b[userEnd..])
    case Err(e) => Err(e)
    case Ok(trailer) =>
      if |trailer| < 2 || trailer[0] != TAG_SIGNATURE then Err(Authentication)
      else if trailer[1] > |trailer| - 2 then Err(Malformed)
      else
        var tag := trailer[2..2 + trailer[1] as int];
        if key.sec != SEC_NONE then
          if |tag| != GCM_TAG_LEN then Err(Authentication)
          else
            match c.open(key, iv, b[userStart..userEnd] + tag, b[..userStart])
            case None => Err(Authentication)
            case Some(plain) => Ok(plain)
        else if |tag| != MacLen(key.sig) || tag != c.mac(key, b[..|b| - |trailer|]) then Err(Authentication)
        else Ok(b[userStart..userEnd])
  }

  function ParseUser(b: Bytes, info: SecInfo, c: Crypto): (r: Result<Bytes>)
    requires info.end <= |b|
  {
    if |b| < info.end + 4 || BE(b[info.end..info.end + 4]) > |b| - info.end - 4 then Err(Malformed)
    else
      var userStart := info.end + 4;
      var userEnd := userStart + BE(b[info.end..info.end + 4]);
      if info.key.None? then if userEnd != |b| then Err(Malformed) else Ok(b[userStart..userEnd])
      else Verify(b, userStart, userEnd, info.key.value, info.iv, c)
  }

  function Unmarshal(b: Bytes, keys: KeyMap, c: Crypto): (r: Result<SPDU>)
  {
    if |b| < 22 || b[0] != 0x01 || b[1] != 0x40 || b[4] != TAG_COMMON then Err(Malformed)
    else
      BEBounds(b[10..14]);
      BEBounds(b[14..16]);
      BEBounds(b[16..20]);
      BEBounds(b[20..22]);
      var version := BE(b[14..16]);
      if version != 1 && version != 2 then Err(Version)
      else
        match (if version == 1 then ParseSecInfo1(b, keys) else ParseSecInfo2(b, keys))
        case Err(e) => Err(e)
        case Ok(info) =>
          match ParseUser(b, info, c)
          case Err(e) => Err(e)
          case Ok(user) =>
            match ParsePayloads(user, true)
            case Err(e) => Err(e)
            case Ok(ps) =>
              var encrypted := info.key.Some? && info.key.value.sec != SEC_NONE;
              Ok(SPDU(b[2], BE(b[10..14]), version, info.keyID, BE(b[16..20]), ToInt16(BE(b[20..22])), ps,
                      info.key.Some? && !encrypted, encrypted))
  }

  // Round trip

  lemma Uint32Octets(n: uint32)
    ensures BE(ToBE(n, 4)) == n
  {
    ShrGone(n, 4);
    BEToBE(n, 4);
  }

  lemma Uint16Octets(n: uint16)
    ensures BE(ToBE(n, 2)) == n
  {
    ShrGone(n, 2);
    BEToBE(n, 2);
  }

  // x is found in b behind the front that precedes it.
  lemma Found(b: Bytes, front: Bytes, x: Bytes, back: Bytes)
    requires b == front + (x + back)
    ensures b[|front|..|front| + |x|] == x && b[|front| + |x|..] == back
    ensures b == (front + x) + back
  {}

  lemma CommonHeaderReads(s: SPDU, hdrLen: nat, total: int, back: Bytes)
    ensures
      var b := CommonHeader(s, hdrLen, total) + back;
      && b[0] == 0x01 && b[1] == 0x40 && b[2] == s.si && b[4] == TAG_COMMON
      && BE(b[10..14]) == s.number && BE(b[14..16]) == EffectiveVersion(s)
  {
    hide ToBE, BE;
    var b := CommonHeader(s, hdrLen, total) + back;
    assert b[10..14] == ToBE(s.number, 4);
    assert b[14..16] == ToBE(EffectiveVersion(s), 2);
    Uint32Octets(s.number);
    Uint16Octets(EffectiveVersion(s));
  }

  lemma KeyTimesRead(front: Bytes, key: Option<Key>, back: Bytes)
    requires |front| == 16
    ensures
      var b := front + (KeyTimes(key) + back);
      && BE(b[16..20]) == (if key.None? then 0 else key.value.timeOfCurrentKey)
      && ToInt16(BEWord(b)) == (if key.None? then 0 else key.value.timeToNextKey)
  {
    hide ToBE, BE;
    var b := front + (KeyTimes(key) + back);
    var tock: uint32 := if key.None? then 0 else key.value.timeOfCurrentKey;
    var ttnk: uint16 := if key.None? then 0 else ToUint16(key.value.timeToNextKey);
    assert b[16..20] == ToBE(tock, 4);
    assert b[20..22] == ToBE(ttnk, 2);
    Uint32Octets(tock);
    Uint16Octets(ttnk);
  }

  function BEWord(b: Bytes): (n: uint16)
    requires |b| >= 22
  {
    BEBounds(b[20..22]);
    BE(b[20..22])
  }

  lemma SecInfo1Reads(front: Bytes, key: Option<Key>, iv: Bytes, back: Bytes, keys: KeyMap)
    requires |front| == 22
    requires key.Some? ==> Validate(key.value).Valid? && Lookup(keys, key.value.id) == key
    requires key.Some? ==> key.value.sec == SEC_NONE
    ensures ParseSecInfo1(front + (SecurityInfo(1, key, iv) + back), keys) ==
            Ok(SecInfo(KeyIDOf(key), key, [], 28))
  {
    hide ToBE, BE;
    var b := front + (SecurityInfo(1, key, iv) + back);
    assert b[24..28] == ToBE(KeyIDOf(key), 4);
    Uint32Octets(KeyIDOf(key));
  }

  lemma SecInfo2Reads(front: Bytes, key: Option<Key>, iv: Bytes, back: Bytes, keys: KeyMap)
    requires |front| == 22 && |iv| == GCM_IV_LEN
    requires key.Some? ==> Validate(key.value).Valid? && Lookup(keys, key.value.id) == key
    ensures ParseSecInfo2(front + (SecurityInfo(2, key, iv) + back), keys) ==
            Ok(SecInfo(KeyIDOf(key), key, IVOf(key, iv), 22 + |SecurityInfo(2, key, iv)|))
  {
    hide ToBE, BE;
    var b := front + (SecurityInfo(2, key, iv) + back);
    assert b[22..26] == ToBE(KeyIDOf(key), 4);
    Uint32Octets(KeyIDOf(key));
    assert b[26] == |IVOf(key, iv)|;
    assert b[27..27 + |IVOf(key, iv)|] == IVOf(key, iv);
  }

  // The verified user data of a body just built is the user data.
  lemma VerifyReads(head: Bytes, user: Bytes, key: Key, iv: Bytes, c: Crypto)
    requires Lawful(c) && Validate(key).Valid?
    ensures
      var b := head + Body(head, user, Some(key), iv, c);
      |head| + |user| <= |b| && Verify(b, |head|, |head| + |user|, key, iv, c) == Ok(user)
  {
    if key.sec != SEC_NONE {
      SealedReads(head, user, key, iv, c);
    } else {
      SignedReads(head, user, key, iv, c);
    }
  }

  lemma SealedReads(head: Bytes, user: Bytes, key: Key, iv: Bytes, c: Crypto)
    requires Lawful(c) && Validate(key).Valid? && key.sec != SEC_NONE
    ensures
      var b := head + Body(head, user, Some(key), iv, c);
      |head| + |user| <= |b| && Verify(b, |head|, |head| + |user|, key, iv, c) == Ok(user)
  {
    var sealed := c.seal(key, iv, user, head);
    var ct := sealed[..|user|];
    var tag := sealed[|user|..];
    var trailer := [TAG_SIGNATURE, GCM_TAG_LEN] + tag;
    var b := head + Body(head, user, Some(key), iv, c);
    assert b == head + (ct + trailer);
    Found(b, head, ct, trailer);
    assert b[..|head|] == head;
    assert trailer[2..2 + GCM_TAG_LEN] == tag;
    assert ct + tag == sealed;
  }

  lemma SignedReads(head: Bytes, user: Bytes, key: Key, iv: Bytes, c: Crypto)
    requires Lawful(c) && Validate(key).Valid? && key.sec == SEC_NONE
    ensures
      var b := head + Body(head, user, Some(key), iv, c);
      |head| + |user| <= |b| && Verify(b, |head|, |head| + |user|, key, iv, c) == Ok(user)
  {
    var mac := c.mac(key, head + user);
    var trailer := [TAG_SIGNATURE, |mac|] + mac;
    var b := head + Body(head, user, Some(key), iv, c);
    assert b == head + (user + trailer);
    Found(b, head, user, trailer);
    assert b[..|b| - |trailer|] == head + user;
    assert trailer[2..2 + |mac|] == mac;
  }

  // The length field delimits the user data.
  lemma UserDelimited(head: Bytes, body: Bytes, n: nat, info: SecInfo, c: Crypto)
    requires |head| == info.end + 4 && BE(head[info.end..]) == n <= |body|
    ensures
      var b := head + body;
      ParseUser(b, info, c) ==
      if info.key.None? then (if n != |body| then Err(Malformed) else Ok(body))
      else Verify(b, |head|, |head| + n, info.key.value, info.iv, c)
  {
    hide BE, Verify;
    var b := head + body;
    assert b[info.end..info.end + 4] == head[info.end..];
    assert b[|head|..|head| + |body|] == body;
  }

  lemma UserReads(front: Bytes, user: Bytes, info: SecInfo, iv: Bytes, c: Crypto)
    requires Lawful(c) && |user| < 0x1_0000_0000
    requires info.end == |front| && (info.key.Some? ==> Validate(info.key.value).Valid?)
    requires info.iv == IVOf(info.key, iv)
    ensures
      var head := front + ToBE(|user|, 4);
      ParseUser(head + Body(head, user, info.key, iv, c), info, c) == Ok(user)
  {
    hide ToBE, BE, Verify, Body, Lawful, Validate, ParseUser;
    var head := front + ToBE(|user|, 4);
    var body := Body(head, user, info.key, iv, c);
    assert head[info.end..] == ToBE(|user|, 4);
    Uint32Octets(|user|);
    if info.key.None? {
      UnsecuredBody(head, user, iv, c);
      UserDelimited(head, body, |user|, info, c);
    } else {
      var key := info.key.value;
      VerifyReads(head, user, key, iv, c);
      UserDelimited(head, body, |user|, info, c);
      if key.sec == SEC_NONE {
        SignatureIgnoresIV(head + body, |head|, |head| + |user|, key, iv, info.iv, c);
      }
    }
  }

  lemma UnsecuredBody(head: Bytes, user: Bytes, iv: Bytes, c: Crypto)
    requires Lawful(c)
    ensures Body(head, user, None, iv, c) == user
  {}

  lemma SignatureIgnoresIV(b: Bytes, userStart: nat, userEnd: nat, key: Key, iv1: Bytes, iv2: Bytes, c: Crypto)
    requires userStart <= userEnd <= |b| && key.sec == SEC_NONE
    ensures Verify(b, userStart, userEnd, key, iv1, c) == Verify(b, userStart, userEnd, key, iv2, c)
  {}

  // What a receiver holding the key makes of an SPDU.
  function Delivered(s: SPDU, key: Option<Key>): SPDU
  {
    s.(version := EffectiveVersion(s), keyID := KeyIDOf(key),
       timeOfCurrentKey := if key.None? then 0 else key.value.timeOfCurrentKey,
       timeToNextKey := if key.None? then 0 else key.value.timeToNextKey,
       signed := key.Some? && key.value.sec == SEC_NONE,
       encrypted := key.Some? && key.value.sec != SEC_NONE)
  }

  // Every SPDU that can be encoded, in either version, signed, encrypted or
  // unsecured, comes back with its identifier, number, key fields and payloads.
  lemma RoundTrip(s: SPDU, key: Option<Key>, iv: Bytes, c: Crypto, keys: KeyMap)
    requires Lawful(c) && |iv| == GCM_IV_LEN
    requires |UserData(s.payloads)| < 0x1_0000_0000
    requires key.Some? ==> Lookup(keys, key.value.id) == key
    ensures MarshalError(s, key).None? ==>
      Unmarshal(Marshal(s, key, iv, c).value, keys, c) == Ok(Delivered(s, key))
  {
    if MarshalError(s, key).None? {
      hide Header, UserData, ParsePayloads, ParseUser, BE, Body, ParseSecInfo1, ParseSecInfo2, Validate, Lawful;
      var user := UserData(s.payloads);
      var head := Header(s, key, iv);
      PayloadsRoundTrip(s.payloads, true);
      HeaderReads(s, key, iv, Body(head, user, key, iv, c), keys);
      BodyReads(s, key, iv, c);
    }
  }

  // The header with whatever follows it reads back field by field.
  lemma HeaderReads(s: SPDU, key: Option<Key>, iv: Bytes, body: Bytes, keys: KeyMap)
    requires |iv| == GCM_IV_LEN && MarshalError(s, key).None?
    requires key.Some? ==> Lookup(keys, key.value.id) == key
    ensures
      var b := Header(s, key, iv) + body;
      && 22 <= |b|
      && b[0] == 0x01 && b[1] == 0x40 && b[2] == s.si && b[4] == TAG_COMMON
      && BE(b[10..14]) == s.number && BE(b[14..16]) == EffectiveVersion(s)
      && BE(b[16..20]) == Delivered(s, key).timeOfCurrentKey
      && ToInt16(BEWord(b)) == Delivered(s, key).timeToNextKey
      && (if EffectiveVersion(s) == 1 then ParseSecInfo1(b, keys) else ParseSecInfo2(b, keys)) == Ok(InfoOf(s, key, iv))
  {
    hide CommonHeader, KeyTimes, SecurityInfo, BE, ToBE, ParseSecInfo1, ParseSecInfo2, Validate, UserData;
    var v := EffectiveVersion(s);
    var h := Header(s, key, iv);
    var cl := if v == 1 then 24 else 23 + |IVOf(key, iv)|;
    var user := UserData(s.payloads);
    var trailer :=
      if key.None? then 0 else if key.value.sec != SEC_NONE then 2 + GCM_TAG_LEN else 2 + MacLen(key.value.sig);
    var common := CommonHeader(s, cl, 8 + cl + |user| + trailer);
    var times := KeyTimes(key);
    var sec := SecurityInfo(v, key, iv);
    var tail := ToBE(|user|, 4) + body;
    var b := h + body;
    assert b == common + (times + (sec + tail));
    CommonHeaderReads(s, cl, 8 + cl + |user| + trailer, times + (sec + tail));
    KeyTimesRead(common, key, sec + tail);
    Found(b, common, times, sec + tail);
    if v == 1 {
      SecInfo1Reads(common + times, key, iv, tail, keys);
      SecInfo1Length(key, iv);
    } else {
      SecInfo2Reads(common + times, key, iv, tail, keys);
    }
  }

  lemma SecInfo1Length(key: Option<Key>, iv: Bytes)
    ensures |SecurityInfo(1, key, iv)| == 6
  {}

  function InfoOf(s: SPDU, key: Option<Key>, iv: Bytes): SecInfo
  {
    SecInfo(KeyIDOf(key), key, IVOf(key, iv), 22 + |SecurityInfo(EffectiveVersion(s), key, iv)|)
  }

  lemma BodyReads(s: SPDU, key: Option<Key>, iv: Bytes, c: Crypto)
    requires Lawful(c) && |iv| == GCM_IV_LEN && MarshalError(s, key).None?
    requires |UserData(s.payloads)| < 0x1_0000_0000
    ensures
      var head := Header(s, key, iv); var user := UserData(s.payloads);
      && InfoOf(s, key, iv).end <= |head|
      && ParseUser(head + Body(head, user, key, iv, c), InfoOf(s, key, iv), c) == Ok(user)
  {
    hide ParseUser, Body, UserData, CommonHeader, KeyTimes, SecurityInfo, ToBE, Lawful;
    var v := EffectiveVersion(s);
    var head := Header(s, key, iv);
    var user := UserData(s.payloads);
    var front := head[..|head| - 4];
    assert |front| == 22 + |SecurityInfo(v, key, iv)|;
    assert head == front + ToBE(|user|, 4);
    UserReads(front, user, InfoOf(s, key, iv), iv, c);
  }

  // Authenticity, in terms of the octets that arrived

  // Where the user data start and end, and what stands before their length.
  function UserStart(b: Bytes): (n: nat)
    requires |b| >= 27
    ensures n >= 31
  {
    if BE(b[14..16]) == 1 then 32 else 31 + b[26] as int
  }

  function UserEnd(b: Bytes): (n: nat)
    requires |b| >= 27 && UserStart(b) <= |b|
    ensures n >= UserStart(b)
  {
    UserStart(b) + BE(b[UserStart(b) - 4..UserStart(b)])
  }

  function Vector(b: Bytes): Bytes
    requires |b| >= 27 && UserStart(b) <= |b|
  {
    if BE(b[14..16]) == 1 then [] else b[27..UserStart(b) - 4]
  }

  // Where the signature is: after the user data and any padding.
  function SignatureAt(b: Bytes, userEnd: nat): (p: nat)
    ensures p >= userEnd
  {
    if userEnd + 2 <= |b| && b[userEnd] == 0xAF then userEnd + 2 + b[userEnd + 1] as int else userEnd
  }

  // The signature at p vouches for user: as the user data between the two
  // places, under the MAC of everything before p; or as what opening the octets
  // between them gives, with everything before them as additional data.
  ghost predicate Vouched(b: Bytes, userStart: nat, userEnd: nat, p: nat, key: Key, iv: Bytes, user: Bytes, c: Crypto)
  {
    var n := if key.sec == SEC_NONE then MacLen(key.sig) else 16;
    && userStart <= userEnd <= p && p + 2 + n <= |b|
    && b[p] == 0x85 && b[p + 1] == n
    && var tag := b[p + 2..p + 2 + n];
       if key.sec == SEC_NONE then tag == c.mac(key, b[..p]) && user == b[userStart..userEnd]
       else c.open(key, iv, b[userStart..userEnd] + tag, b[..userStart]) == Some(user)
  }

  // The verification passes exactly what is vouched for.
  lemma VerifiedIsAuthentic(b: Bytes, userStart: nat, userEnd: nat, key: Key, iv: Bytes, user: Bytes, c: Crypto)
    requires userStart <= userEnd <= |b|
    ensures Verify(b, userStart, userEnd, key, iv, c) == Ok(user) <==>
            Vouched(b, userStart, userEnd, SignatureAt(b, userEnd), key, iv, user, c)
  {
    var p := SignatureAt(b, userEnd);
    var rest := b[userEnd..];
    if p <= |b| {
      var trailer := b[p..];
      assert SkipPadding(rest) == Ok(trailer);
      if |trailer| >= 2 && trailer[1] <= |trailer| - 2 {
        assert trailer[2..2 + trailer[1] as int] == b[p + 2..p + 2 + b[p + 1] as int];
      }
    }
  }

  // Whatever octets arrive, an SPDU is accepted only with the payloads of user
  // data found in them: those of the datagram itself if it names no key, and
  // then nothing follows them; otherwise those a key the receiver holds vouches
  // for, which it is marked with.
  lemma AcceptedIsAuthentic(b: Bytes, keys: KeyMap, c: Crypto) returns (user: Bytes)
    requires Unmarshal(b, keys, c).Ok?
    ensures |b| >= 27 && UserStart(b) <= UserEnd(b) <= |b|
    ensures
      var s := Unmarshal(b, keys, c).value;
      && ParsePayloads(user, true) == Ok(s.payloads)
      && if s.keyID == 0 then !s.signed && !s.encrypted && UserEnd(b) == |b| && user == b[UserStart(b)..]
         else
           && s.keyID in keys
           && s.signed == (keys[s.keyID].sec == SEC_NONE) && s.encrypted == !s.signed
           && Vouched(b, UserStart(b), UserEnd(b), SignatureAt(b, UserEnd(b)), keys[s.keyID], Vector(b), user, c)
  {
    hide BE, ParsePayloads, Verify, Vouched;
    var s := Unmarshal(b, keys, c).value;
    var info := (if s.version == 1 then ParseSecInfo1(b, keys) else ParseSecInfo2(b, keys)).value;
    user := ParseUser(b, info, c).value;
    assert UserStart(b) == info.end + 4 && Vector(b) == info.iv;
    if info.key.Some? {
      VerifiedIsAuthentic(b, UserStart(b), UserEnd(b), info.key.value, info.iv, user, c);
    }
  }

  // The codec as it runs

  // Big-endian fields in order; a read past the end is recorded and gives 0.
  class Reader {
    const b: Bytes
    var off: nat
    var short: bool

    // k octets have been asked for so far.
    ghost predicate At(k: nat)
      reads this
    {
      if k <= |b| then !short && off == k else short
    }

    constructor (b: Bytes)
      ensures this.b == b && At(0)
    {
      this.b := b;
      off := 0;
      short := false;
    }

    method Take(n: nat, ghost k: nat) returns (v: Bytes)
      requires At(k)
      modifies this
      ensures At(k + n)
      ensures v == if k + n <= |b| then b[k..k + n] else []
    {
      if short || n > |b| - off {
        short := true;
        return [];
      }
      v := b[off..off + n];
      off := off + n;
    }

    method U8(ghost k: nat) returns (v: byte)
      requires At(k)
      modifies this
      ensures At(k + 1)
      ensures v == if k < |b| then b[k] else 0
    {
      var s := Take(1, k);
      v := if |s| == 1 then s[0] else 0;
    }

    method U16(ghost k: nat) returns (v: uint16)
      requires At(k)
      modifies this
      ensures At(k + 2)
      ensures v == if k + 2 <= |b| then BE(b[k..k + 2]) else 0
    {
      var s := Take(2, k);
      if |s| == 2 { BE2(s); }
      v := if |s| == 2 then s[0] as int * 0x100 + s[1] else 0;
    }

    method U32(ghost k: nat) returns (v: uint32)
      requires At(k)
      modifies this
      ensures At(k + 4)
      ensures v == if k + 4 <= |b| then BE(b[k..k + 4]) else 0
    {
      var s := Take(4, k);
      if |s| == 4 { BE4(s); }
      v := if |s| == 4 then s[0] as int * 0x100_0000 + s[1] as int * 0x1_0000 + s[2] as int * 0x100 + s[3] else 0;
    }
  }

  method ReadSecInfo1(r: Reader, keys: KeyMap) returns (info: Result<SecInfo>)
    requires |r.b| >= 22 && r.At(22)
    modifies r
    ensures info == ParseSecInfo1(r.b, keys)
    ensures info.Ok? ==> r.At(info.value.end)
  {
    hide BE;
    var sec := r.U8(22);
    var sig := r.U8(23);
    var keyID := r.U32(24);
    if r.short {
      return Err(Malformed);
    }
    if keyID == 0 {
      return if sec != SEC_NONE || sig != SIG_NONE then Err(Malformed) else Ok(SecInfo(0, None, [], 28));
    }
    var key := Lookup(keys, keyID);
    if key.None? {
      return Err(UnknownKey);
    }
    return if sec != key.value.sec || sig != key.value.sig then Err(Algorithm) else Ok(SecInfo(keyID, key, [], 28));
  }

  method ReadSecInfo2(r: Reader, keys: KeyMap) returns (info: Result<SecInfo>)
    requires |r.b| >= 22 && r.At(22)
    modifies r
    ensures info == ParseSecInfo2(r.b, keys)
    ensures info.Ok? ==> r.At(info.value.end)
  {
    hide BE;
    var keyID := r.U32(22);
    var ivLen := r.U8(26);
    var iv := r.Take(ivLen, 27);
    if r.short {
      return Err(Malformed);
    }
    if keyID == 0 {
      return Ok(SecInfo(0, None, iv, 27 + ivLen as int));
    }
    var key := Lookup(keys, keyID);
    if key.None? {
      return Err(UnknownKey);
    }
    if key.value.sec != SEC_NONE && ivLen != GCM_IV_LEN {
      return Err(Malformed);
    }
    return Ok(SecInfo(keyID, key, iv, 27 + ivLen as int));
  }

  method ReadUser(r: Reader, info: SecInfo, c: Crypto) returns (user: Result<Bytes>)
    requires info.end <= |r.b| && r.At(info.end)
    modifies r
    ensures user == ParseUser(r.b, info, c)
  {
    hide BE, Verify;
    var ul := r.U32(info.end);
    if r.short || ul > |r.b| - r.off {
      return Err(Malformed);
    }
    var userStart := r.off;
    var userEnd := userStart + ul;
    if info.key.None? {
      return if userEnd != |r.b| then Err(Malformed) else Ok(r.b[userStart..userEnd]);
    }
    return Verify(r.b, userStart, userEnd, info.key.value, info.iv, c);
  }

  method ReadPayloads(user: Bytes) returns (r: Result<seq<Payload>>)
    ensures r == ParsePayloads(user, true)
  {
    hide ParsePayload;
    var off := 0;
    var got: seq<Payload> := [];
    assert user[0..] == user;
    ghost var whole := ParsePayloads(user, true);
    assert whole.Ok? ==> [] + whole.value == whole.value;
    while off < |user|
      invariant 0 <= off <= |user|
      invariant
        var tail := ParsePayloads(user[off..], true);
        ParsePayloads(user, true) == if tail.Err? then tail else Ok(got + tail.value)
    {
      var p := ParsePayload(user[off..], true);
      if p.NoPayload? {
        return Err(Malformed);
      }
      PayloadTail(user[off..]);
      ghost var tail := ParsePayloads(p.rest, true);
      assert tail.Ok? ==> got + ([p.payload] + tail.value) == got + [p.payload] + tail.value;
      got := got + [p.payload];
      off := |user| - |p.rest|;
    }
    assert user[off..] == [];
    assert got + [] == got;
    return Ok(got);
  }

  lemma PayloadTail(user: Bytes)
    requires ParsePayload(user, true).PayloadGot?
    ensures var r := ParsePayload(user, true).rest; r == user[|user| - |r|..]
  {}

  method Receive(b: Bytes, keys: KeyMap, c: Crypto) returns (s: Result<SPDU>)
    ensures s == Unmarshal(b, keys, c)
  {
    hide BE, ParseSecInfo1, ParseSecInfo2, ParseUser, ParsePayloads;
    var r := new Reader(b);
    var li := r.U8(0);
    var ud := r.U8(1);
    if li != 0x01 || ud != 0x40 {
      return Err(Malformed);
    }
    var si := r.U8(2);
    var hdrLen := r.U8(3);
    var tag := r.U8(4);
    if tag != TAG_COMMON {
      return Err(Malformed);
    }
    var commonLen := r.U8(5);
    var spduLen := r.U32(6);
    var number := r.U32(10);
    var version := r.U16(14);
    var tock := r.U32(16);
    var ttnk := r.U16(20);
    if r.short {
      return Err(Malformed);
    }
    if version != 1 && version != 2 {
      return Err(Version);
    }
    var info;
    if version == 1 {
      info := ReadSecInfo1(r, keys);
    } else {
      info := ReadSecInfo2(r, keys);
    }
    if info.Err? {
      return Err(info.error);
    }
    s := ReceiveRest(r, info.value, si, number, version, tock, ToInt16(ttnk), c);
  }

  method ReceiveRest(r: Reader, info: SecInfo, si: byte, number: uint32, version: uint16, tock: uint32,
                     ttnk: int16, c: Crypto) returns (s: Result<SPDU>)
    requires info.end <= |r.b| && r.At(info.end)
    modifies r
    ensures s ==
      match ParseUser(r.b, info, c)
      case Err(e) => Err(e)
      case Ok(user) =>
        match ParsePayloads(user, true)
        case Err(e) => Err(e)
        case Ok(ps) =>
          var encrypted := info.key.Some? && info.key.value.sec != SEC_NONE;
          Ok(SPDU(si, number, version, info.keyID, tock, ttnk, ps, info.key.Some? && !encrypted, encrypted))
  {
    hide ParseUser, ParsePayloads;
    var user := ReadUser(r, info, c);
    if user.Err? {
      return Err(user.error);
    }
    var ps := ReadPayloads(user.value);
    if ps.Err? {
      return Err(ps.error);
    }
    var encrypted := info.key.Some? && info.key.value.sec != SEC_NONE;
    s := Ok(SPDU(si, number, version, info.keyID, tock, ttnk, ps.value, info.key.Some? && !encrypted, encrypted));
  }

  // The user data, its length having been added up first.
  method AppendPayloads(dst: Bytes, ps: seq<Payload>) returns (out: Bytes)
    ensures out == dst + UserData(ps)
  {
    hide PayloadOctets;
    out := dst;
    var i := 0;
    while i < |ps|
      invariant i <= |ps|
      invariant out + UserData(ps[i..]) == dst + UserData(ps)
    {
      assert ps[i..][1..] == ps[i + 1..];
      out := out + PayloadOctets(ps[i]);
      i := i + 1;
    }
    assert UserData(ps[i..]) == [];
  }

  method MeasurePayloads(ps: seq<Payload>) returns (r: Result<nat>)
    ensures r == if exists p | p in ps :: |p.apdu| > 0xffff then Err(TooLong) else Ok(|UserData(ps)|)
  {
    hide PayloadOctets;
    var userLen := 0;
    var i := 0;
    while i < |ps|
      invariant i <= |ps|
      invariant forall k | 0 <= k < i :: |ps[k].apdu| <= 0xffff
      invariant userLen + |UserData(ps[i..])| == |UserData(ps)|
    {
      if |ps[i].apdu| > 0xffff {
        return Err(TooLong);
      }
      assert ps[i..][1..] == ps[i + 1..];
      userLen := userLen + ELEMENT_HEADER + |ps[i].apdu|;
      i := i + 1;
    }
    r := Ok(userLen);
  }

  method Send(s: SPDU, key: Option<Key>, iv: Bytes, c: Crypto) returns (r: Result<Bytes>)
    requires Lawful(c) && |iv| == GCM_IV_LEN
    ensures r == Marshal(s, key, iv, c)
  {
    hide Header, Body, Validate, Lawful, UserData;
    var version := EffectiveVersion(s);
    if version != 1 && version != 2 {
      return Err(Version);
    }
    if key.Some? {
      var v := Validate(key.value);
      if v.Invalid? {
        return Err(BadKey(v.error));
      }
      if version == 1 && key.value.sec != SEC_NONE {
        return Err(Version1Encrypt);
      }
    }
    var userLen := MeasurePayloads(s.payloads);
    if userLen.Err? {
      return Err(userLen.error);
    }
    var head := WriteHeader(s, key, iv, userLen.value);
    var b := AppendPayloads(head, s.payloads);
    var user := b[|head|..];
    assert user == UserData(s.payloads);
    r := Ok(head + Body(head, user, key, iv, c));
  }

  method WriteHeader(s: SPDU, key: Option<Key>, iv: Bytes, userLen: nat) returns (b: Bytes)
    requires userLen == |UserData(s.payloads)|
    ensures b == Header(s, key, iv)
  {
    hide ToBE, UserData;
    var version := EffectiveVersion(s);
    var secInfoLen := if version == 1 then 12 else 11 + |IVOf(key, iv)|;
    var trailer :=
      if key.None? then 0 else if key.value.sec != SEC_NONE then 2 + GCM_TAG_LEN else 2 + MacLen(key.value.sig);
    var hdrLen := 2 + COMMON_LEN as int + secInfoLen;
    var total := 2 + 2 + hdrLen + 4 + userLen + trailer;
    b := [0x01, 0x40, s.si, hdrLen % 0x100, TAG_COMMON, COMMON_LEN];
    b := b + ToBE(total - |b| - 4, 4);
    b := b + ToBE(s.number, 4);
    b := b + ToBE(version, 2);
    assert b == CommonHeader(s, hdrLen, total);
    ghost var common := b;
    b := b + KeyTimes(key);
    b := b + SecurityInfo(version, key, iv);
    b := b + ToBE(userLen, 4);
    assert b == common + (KeyTimes(key) + (SecurityInfo(version, key, iv) + ToBE(userLen, 4)));
  }
}
