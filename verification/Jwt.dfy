/** Token construction and validation: compact serialization (section 7.1 of RFC 7515) of a signed
    JSON payload, with the expiration rule of section 4.1.4 of RFC 7519 in view. */
module Jwt {
  import opened Wrappers
  import Base64Url
  import Decimal
  import Json

  const TICKS_PER_SECOND := 1_000_000

  /** Clock readings in microseconds since the epoch. */
  type Time = nat

  function Seconds(t: Time): nat { t / TICKS_PER_SECOND }

  predicate FitsInt64(i: int) { -0x8000_0000_0000_0000 <= i < 0x8000_0000_0000_0000 }

  /** The keyed hash of the signer and the verifier, and the encoder's padding mode. */
  datatype Service = Service(mac: string -> string, pad: bool)

  ghost predicate MacYieldsBytes(svc: Service) { forall m :: Base64Url.IsBytes(svc.mac(m)) }

  datatype Payload = Payload(user: int, isRefresh: bool)

  datatype Validation = Valid(payload: Payload) | Expired | Invalid

  // ----- std::stoll -----

  predicate IsSpace(c: char) { c == ' ' || c == '\n' || c == '\t' || c == '\r' || c == '\U{0B}' || c == '\U{0C}' }

  /** The leading integer of a text; None is an exception (no digits, or out of range). */
  function Stoll(s: string): Option<int> {
    var t := s[Json.Span(IsSpace, s)..];
    var negative := t != "" && t[0] == '-';
    var digits := if t != "" && (t[0] == '-' || t[0] == '+') then t[1..] else t;
    var n :- Decimal.ParseNat(digits[..Json.Span(Decimal.IsDigit, digits)]);
    var i := if negative then -(n as int) else n;
    if FitsInt64(i) then Some(i) else None
  }

  lemma StollOfInt(i: int)
    requires FitsInt64(i)
    ensures Stoll(Decimal.OfInt(i)) == Some(i)
  {
    var s := Decimal.OfInt(i);
    var n := if i < 0 then -i else i;
    var d := Decimal.OfNat(n);
    assert Decimal.IsDigit(d[0]);
    assert Json.Span(IsSpace, s) == 0 && s[0..] == s;
    Json.SpanStops(Decimal.IsDigit, d, "");
    assert d + "" == d && d[..|d|] == d;
    assert i < 0 ==> s[1..] == d;
    Decimal.ParseNatOfNat(n);
  }

  // ----- construction -----

  function PayloadObject(user: int, isRefresh: bool, issued: int, expires: int, jti: string): Json.Object {
    [("sub", Json.Number(user)), ("iat", Json.Number(issued)), ("exp", Json.Number(expires)),
     ("ref", Json.Boolean(isRefresh)), ("iss", Json.Text("auth-service")), ("jti", Json.Text(jti))]
  }

  function HeaderObject(): Json.Object { [("alg", Json.Text("HS256")), ("typ", Json.Text("JWT"))] }

  /** exp: the expiry moment, truncated to seconds. */
  function Expiry(now: Time, ttl: nat): nat { Seconds(now + ttl * TICKS_PER_SECOND) }

  /** What is signed: header and payload, each encoded, joined by a dot. */
  function ToSign(svc: Service, payload: Json.Object): string
    requires Base64Url.IsBytes(Json.ObjectText(HeaderObject())) && Base64Url.IsBytes(Json.ObjectText(payload))
  {
    Base64Url.Encode(Json.ObjectText(HeaderObject()), svc.pad) + "." +
      Base64Url.Encode(Json.ObjectText(payload), svc.pad)
  }

  /** CreateToken; `random` is the 16-byte random block. None is std::stoll's exception. */
  function CreateToken(svc: Service, userText: string, isRefresh: bool, ttl: nat, now: Time,
      random: string): (token: Option<string>)
    requires MacYieldsBytes(svc) && Base64Url.IsBytes(random)
  {
    var user :- Stoll(userText);
    var payload := PayloadObject(user, isRefresh, Seconds(now), Expiry(now, ttl), Base64Url.Encode(random, svc.pad));
    PayloadIsBytes(svc, user, isRefresh, Seconds(now), Expiry(now, ttl), random);
    HeaderIsBytes();
    var toSign := ToSign(svc, payload);
    Some(toSign + "." + Base64Url.Encode(svc.mac(toSign), svc.pad))
  }

  /** GenerateAccessToken and GenerateRefreshToken for a user id. */
  function Generate(svc: Service, user: int, isRefresh: bool, ttl: nat, now: Time, random: string): string
    requires MacYieldsBytes(svc) && Base64Url.IsBytes(random) && FitsInt64(user)
  {
    StollOfInt(user);
    CreateToken(svc, Decimal.OfInt(user), isRefresh, ttl, now, random).value
  }

  // ----- validation -----

  /** string::find and string::rfind. */
  function Find(s: string, c: char): (r: Option<nat>)
    ensures r.Some? ==> r.value < |s| && s[r.value] == c
  {
    if s == "" then None
    else if s[0] == c then Some(0)
    else
      var i := Find(s[1..], c);
      if i.Some? then Some(i.value + 1) else None
  }

  function FindLast(s: string, c: char): (r: Option<nat>)
    ensures r.Some? ==> r.value < |s| && s[r.value] == c
    ensures r.None? <==> Find(s, c).None?
    ensures r.Some? ==> Find(s, c).value <= r.value
  {
    if s == "" then None
    else
      var i := FindLast(s[1..], c);
      if i.Some? then Some(i.value + 1)
      else if s[0] == c then Some(0)
      else None
  }

  function NumberMember(o: Json.Object, name: string): Option<int> {
    match Json.Member(o, name)
    case Some(Number(i)) => if FitsInt64(i) then Some(i) else None
    case _ => None
  }

  /** The subject: a number, or failing that a text holding one. */
  function Subject(o: Json.Object): Option<int> {
    if NumberMember(o, "sub").Some? then NumberMember(o, "sub")
    else
      match Json.Member(o, "sub")
      case Some(Text(s)) => Stoll(s)
      case _ => None
  }

  /** The checks on header and payload once the signature is accepted; exceptions mean invalid. */
  function CheckClaims(header: Json.Object, payload: Json.Object, now: Time): Validation {
    if Json.Member(header, "alg") != Some(Json.Text("HS256")) then Invalid
    else if Json.Member(payload, "iss") != Some(Json.Text("auth-service")) then Invalid
    else
      var exp := NumberMember(payload, "exp");
      if exp.None? then Invalid
      else if exp.value < Seconds(now) then Expired
      else
        var ref := Json.Member(payload, "ref");
        if Subject(payload).None? || ref.None? || !ref.value.Boolean? then Invalid
        else Valid(Payload(Subject(payload).value, ref.value.b))
  }

  function ReadPart(encoded: string): Option<Json.Object> {
    var text :- Base64Url.Decode(encoded);
    Json.ReadObject(text)
  }

  function ValidateToken(svc: Service, token: string, now: Time): Validation {
    var first, last := Find(token, '.'), FindLast(token, '.');
    if first.None? || last == first then Invalid
    else
      var signed, signature := token[..last.value], token[last.value + 1..];
      if Base64Url.Decode(signature) != Some(svc.mac(signed)) then Invalid
      else
        var payload, header := ReadPart(signed[first.value + 1..]), ReadPart(signed[..first.value]);
        if payload.None? || header.None? then Invalid else CheckClaims(header.value, payload.value, now)
  }

  function ValidateAccess(svc: Service, token: string, now: Time): Validation {
    var r := ValidateToken(svc, token, now);
    if r.Valid? && r.payload.isRefresh then Invalid else r
  }

  function ValidateRefresh(svc: Service, token: string, now: Time): Option<Payload> {
    var r := ValidateToken(svc, token, now);
    if r.Valid? && r.payload.isRefresh then Some(r.payload) else None
  }

  /** ExtractExpirationTime, in seconds; None is an exception. */
  function ExtractExpiration(token: string): Option<int> {
    var first, last := Find(token, '.'), FindLast(token, '.');
    if first.None? || last == first then None
    else
      var payload :- ReadPart(token[first.value + 1..last.value]);
      NumberMember(payload, "exp")
  }

  // ----- byte strings -----

  lemma AppendIsBytes(a: string, b: string)
    ensures Base64Url.IsBytes(a + b) <==> Base64Url.IsBytes(a) && Base64Url.IsBytes(b)
  {
    assert forall i :: 0 <= i < |a| ==> (a + b)[i] == a[i];
    assert forall i :: 0 <= i < |b| ==> (a + b)[|a| + i] == b[i];
  }

  lemma ValueIsBytes(v: Json.Value)
    requires v.Text? ==> Base64Url.IsBytes(v.s)
    ensures Base64Url.IsBytes(Json.ValueText(v))
  {
    if v.Number? { Json.NumberChars(v.i); }
  }

  predicate ByteMembers(o: Json.Object) {
    forall i :: 0 <= i < |o| ==> Base64Url.IsBytes(o[i].0) && (o[i].1.Text? ==> Base64Url.IsBytes(o[i].1.s))
  }

  lemma {:induction false} MembersAreBytes(o: Json.Object)
    requires ByteMembers(o)
    ensures Base64Url.IsBytes(Json.MembersText(o))
  {
    if o != [] {
      ValueIsBytes(o[0].1);
      MembersAreBytes(o[1..]);
      hide Json.ValueText, Base64Url.IsBytes, Json.Quoted;
      QuotedIsBytes(o[0].0);
      AppendIsBytes(Json.Quoted(o[0].0), ":");
      AppendIsBytes(Json.Quoted(o[0].0) + ":", Json.ValueText(o[0].1));
      CommaIsBytes();
      AppendIsBytes(Json.Quoted(o[0].0) + ":" + Json.ValueText(o[0].1), if |o| > 1 then "," else "");
      AppendIsBytes(Json.Quoted(o[0].0) + ":" + Json.ValueText(o[0].1) + (if |o| > 1 then "," else ""),
        Json.MembersText(o[1..]));
    }
  }

  lemma QuotedIsBytes(s: string)
    requires Base64Url.IsBytes(s)
    ensures Base64Url.IsBytes(Json.Quoted(s))
  {
  }

  lemma CommaIsBytes()
    ensures Base64Url.IsBytes(",") && Base64Url.IsBytes(":") && Base64Url.IsBytes("")
  {
  }

  lemma ObjectIsBytes(o: Json.Object)
    requires ByteMembers(o)
    ensures Base64Url.IsBytes(Json.ObjectText(o))
  {
    MembersAreBytes(o);
    hide Json.MembersText;
  }

  lemma {:induction false} EncodeIsBytes(s: string, pad: bool)
    requires Base64Url.IsBytes(s)
    ensures Base64Url.IsBytes(Base64Url.Encode(s, pad)) && Json.Plain(Base64Url.Encode(s, pad))
  {
    hide Base64Url.Group;
    DigitsArePlain();
    if |s| > 2 { EncodeIsBytes(s[3..], pad); }
  }

  lemma DigitsArePlain()
    ensures forall c :: Base64Url.InAlphabet(c) ==> (c as int) < 256 && c != '"' && c != '\\'
  {
  }

  lemma PayloadIsBytes(svc: Service, user: int, isRefresh: bool, issued: int, expires: int, random: string)
    requires Base64Url.IsBytes(random)
    ensures Base64Url.IsBytes(Json.ObjectText(PayloadObject(user, isRefresh, issued, expires,
      Base64Url.Encode(random, svc.pad))))
  {
    EncodeIsBytes(random, svc.pad);
    hide Base64Url.Encode, Json.ObjectText;
    ObjectIsBytes(PayloadObject(user, isRefresh, issued, expires, Base64Url.Encode(random, svc.pad)));
  }

  lemma HeaderIsBytes()
    ensures Base64Url.IsBytes(Json.ObjectText(HeaderObject()))
  {
    hide Json.ObjectText;
    ObjectIsBytes(HeaderObject());
  }

  // ----- the round trip -----

  lemma {:induction false} FindSkips(a: string, b: string, c: char)
    requires forall i :: 0 <= i < |a| ==> a[i] != c
    ensures Find(a + [c] + b, c) == Some(|a|)
  {
    var s := a + [c] + b;
    if a != "" {
      assert s[1..] == a[1..] + [c] + b;
      FindSkips(a[1..], b, c);
    }
  }

  lemma {:induction false} FindLastAbsent(s: string, c: char)
    requires forall i :: 0 <= i < |s| ==> s[i] != c
    ensures FindLast(s, c) == None
  {
    if s != "" { FindLastAbsent(s[1..], c); }
  }

  lemma {:induction false} FindLastSkips(a: string, b: string, c: char)
    requires forall i :: 0 <= i < |b| ==> b[i] != c
    ensures FindLast(a + [c] + b, c) == Some(|a|)
  {
    var s := a + [c] + b;
    if a == "" {
      assert s[1..] == b;
      FindLastAbsent(b, c);
    } else {
      assert s[1..] == a[1..] + [c] + b;
      FindLastSkips(a[1..], b, c);
    }
  }

  /** Where the dots of a compact token are, and the three parts between them. */
  lemma CompactParts(h: string, p: string, s: string)
    requires forall i :: 0 <= i < |h| ==> h[i] != '.'
    requires forall i :: 0 <= i < |p| ==> p[i] != '.'
    requires forall i :: 0 <= i < |s| ==> s[i] != '.'
    ensures var token := (h + "." + p) + "." + s;
      var first, last := Find(token, '.'), FindLast(token, '.');
      && first.Some? && last.Some? && first.value < last.value
      && token[last.value + 1..] == s && token[..last.value] == h + "." + p
      && token[..last.value][..first.value] == h && token[..last.value][first.value + 1..] == p
      && token[first.value + 1..last.value] == p
  {
    var token := (h + "." + p) + "." + s;
    assert token == h + ['.'] + (p + "." + s);
    FindSkips(h, p + "." + s, '.');
    assert token == (h + "." + p) + ['.'] + s;
    FindLastSkips(h + "." + p, s, '.');
    hide *;
    assert token[..|h| + 1 + |p|] == h + "." + p;
  }

  lemma ReadPartOfEncoded(o: Json.Object, pad: bool)
    requires o != [] && Json.ReadableObject(o) && Base64Url.IsBytes(Json.ObjectText(o))
    ensures ReadPart(Base64Url.Encode(Json.ObjectText(o), pad)) == Some(o)
  {
    hide Base64Url.Encode, Base64Url.Decode, Json.ObjectText, Json.ReadObject;
    Base64Url.DecodeEncode(Json.ObjectText(o), pad);
    Json.ReadObjectText(o);
  }

  lemma PayloadReadable(user: int, isRefresh: bool, issued: int, expires: int, jti: string)
    requires Json.Plain(jti)
    ensures Json.ReadableObject(PayloadObject(user, isRefresh, issued, expires, jti))
    ensures Json.ReadableObject(HeaderObject())
  {
    hide Json.Plain;
    PayloadNamesPlain();
    HeaderNamesPlain();
  }

  lemma PayloadNamesPlain()
    ensures Json.Plain("sub") && Json.Plain("iat") && Json.Plain("exp") && Json.Plain("ref") && Json.Plain("iss")
      && Json.Plain("jti")
  {
  }

  lemma HeaderNamesPlain()
    ensures Json.Plain("auth-service") && Json.Plain("alg") && Json.Plain("typ") && Json.Plain("HS256")
      && Json.Plain("JWT")
  {
  }

  lemma {:induction false} PayloadMembers(user: int, isRefresh: bool, issued: int, expires: int, jti: string)
    ensures var o := PayloadObject(user, isRefresh, issued, expires, jti);
      && Json.Member(o, "sub") == Some(Json.Number(user)) && Json.Member(o, "exp") == Some(Json.Number(expires))
      && Json.Member(o, "ref") == Some(Json.Boolean(isRefresh))
        && Json.Member(o, "iss") == Some(Json.Text("auth-service"))
    ensures Json.Member(HeaderObject(), "alg") == Some(Json.Text("HS256"))
  {
    var o := PayloadObject(user, isRefresh, issued, expires, jti);
    Skip(o, "exp", 2);
    Skip(o, "ref", 3);
    Skip(o, "iss", 4);
    Skip(o, "sub", 0);
    Skip(HeaderObject(), "alg", 0);
  }

  lemma {:induction false} Skip(o: Json.Object, name: string, n: nat)
    requires n < |o| && o[n].0 == name && forall i :: 0 <= i < n ==> o[i].0 != name
    ensures Json.Member(o, name) == Some(o[n].1)
  {
    if n > 0 { Skip(o[1..], name, n - 1); }
  }

  /** What reading finds in a token that was put together from a header and a payload. */
  ghost predicate Reads(svc: Service, token: string, header: Json.Object, payload: Json.Object) {
    var first, last := Find(token, '.'), FindLast(token, '.');
    && first.Some? && last.Some? && first.value < last.value
    && Base64Url.Decode(token[last.value + 1..]) == Some(svc.mac(token[..last.value]))
    && ReadPart(token[..last.value][..first.value]) == Some(header)
    && ReadPart(token[..last.value][first.value + 1..]) == Some(payload)
    && ReadPart(token[first.value + 1..last.value]) == Some(payload)
  }

  lemma CompactReads(svc: Service, payload: Json.Object)
    requires Base64Url.IsBytes(Json.ObjectText(HeaderObject())) && Base64Url.IsBytes(Json.ObjectText(payload))
    requires Base64Url.IsBytes(svc.mac(ToSign(svc, payload)))
    requires Json.ReadableObject(HeaderObject()) && Json.ReadableObject(payload) && payload != []
    ensures Reads(svc, ToSign(svc, payload) + "." + Base64Url.Encode(svc.mac(ToSign(svc, payload)), svc.pad),
      HeaderObject(), payload)
  {
    var toSign := ToSign(svc, payload);
    var h, p, s := Base64Url.Encode(Json.ObjectText(HeaderObject()), svc.pad),
      Base64Url.Encode(Json.ObjectText(payload), svc.pad), Base64Url.Encode(svc.mac(toSign), svc.pad);
    HeaderNotEmpty();
    ReadPartOfEncoded(HeaderObject(), svc.pad);
    hide HeaderObject, Base64Url.Encode, Base64Url.Decode, Json.ObjectText, ReadPart, Find, FindLast, Base64Url.IsBytes,
         Json.ReadableObject;
    Base64Url.EncodeHasNoDot(Json.ObjectText(HeaderObject()), svc.pad);
    Base64Url.EncodeHasNoDot(Json.ObjectText(payload), svc.pad);
    Base64Url.EncodeHasNoDot(svc.mac(toSign), svc.pad);
    CompactParts(h, p, s);
    Base64Url.DecodeEncode(svc.mac(toSign), svc.pad);
    ReadPartOfEncoded(payload, svc.pad);
  }

  lemma HeaderNotEmpty()
    ensures HeaderObject() != []
  {
  }

  lemma GeneratedReads(svc: Service, user: int, isRefresh: bool, ttl: nat, now: Time, random: string)
    requires MacYieldsBytes(svc) && Base64Url.IsBytes(random) && FitsInt64(user)
    ensures Reads(svc, Generate(svc, user, isRefresh, ttl, now, random), HeaderObject(),
                  PayloadObject(user, isRefresh, Seconds(now), Expiry(now, ttl), Base64Url.Encode(random, svc.pad)))
  {
    StollOfInt(user);
    var jti := Base64Url.Encode(random, svc.pad);
    PayloadIsBytes(svc, user, isRefresh, Seconds(now), Expiry(now, ttl), random);
    HeaderIsBytes();
    EncodeIsBytes(random, svc.pad);
    PayloadReadable(user, isRefresh, Seconds(now), Expiry(now, ttl), jti);
    PayloadNotEmpty(user, isRefresh, Seconds(now), Expiry(now, ttl), jti);
    CompactReads(svc, PayloadObject(user, isRefresh, Seconds(now), Expiry(now, ttl), jti));
    hide Reads, HeaderObject, PayloadObject, ToSign, Base64Url.Encode, Json.ObjectText, Base64Url.IsBytes, Stoll,
      Expiry, Seconds;
  }

  lemma PayloadNotEmpty(user: int, isRefresh: bool, issued: int, expires: int, jti: string)
    ensures PayloadObject(user, isRefresh, issued, expires, jti) != []
  {
  }

  lemma ClaimsChecked(user: int, isRefresh: bool, issued: int, expires: int, jti: string, later: Time)
    requires FitsInt64(user) && FitsInt64(expires)
    ensures CheckClaims(HeaderObject(), PayloadObject(user, isRefresh, issued, expires, jti), later)
         == if expires < Seconds(later) then Expired else Valid(Payload(user, isRefresh))
    ensures NumberMember(PayloadObject(user, isRefresh, issued, expires, jti), "exp") == Some(expires)
  {
    PayloadMembers(user, isRefresh, issued, expires, jti);
    hide PayloadObject, HeaderObject, Json.Member;
  }

  /** A generated token validates to its user and kind until its expiry second is over, and is
      expired, never invalid, after that; its expiry can be read back. */
  lemma TokenRoundTrip(svc: Service, user: int, isRefresh: bool, ttl: nat, now: Time, random: string, later: Time)
    requires MacYieldsBytes(svc) && Base64Url.IsBytes(random) && FitsInt64(user) && FitsInt64(Expiry(now, ttl))
    ensures var token := Generate(svc, user, isRefresh, ttl, now, random);
      && ValidateToken(svc, token, later)
         == (if Expiry(now, ttl) < Seconds(later) then Expired else Valid(Payload(user, isRefresh)))
      && ExtractExpiration(token) == Some(Expiry(now, ttl))
  {
    GeneratedReads(svc, user, isRefresh, ttl, now, random);
    ClaimsChecked(user, isRefresh, Seconds(now), Expiry(now, ttl), Base64Url.Encode(random, svc.pad), later);
    hide Base64Url.Encode, Base64Url.Decode, ReadPart, Find, FindLast, Generate, PayloadObject, HeaderObject,
         CheckClaims, NumberMember, Expiry, Seconds;
  }

  /** Header and claims as anyone can read them in a token's text. */
  function TokenParts(token: string): Option<(Json.Object, Json.Object)> {
    var first, last := Find(token, '.'), FindLast(token, '.');
    if first.None? || last == first then None
    else BothParts(ReadPart(token[..first.value]), ReadPart(token[first.value + 1..last.value]))
  }

  function BothParts(header: Option<Json.Object>, claims: Option<Json.Object>): Option<(Json.Object, Json.Object)> {
    if header.Some? && claims.Some? then Some((header.value, claims.value)) else None
  }

  /** Subject, issuing second, expiry a lifetime later, kind, issuer, and an id that holds the random
      block. */
  ghost predicate Claims(o: Json.Object, user: int, isRefresh: bool, ttl: nat, now: Time, random: string) {
    && Json.Member(o, "sub") == Some(Json.Number(user))
    && Json.Member(o, "iat") == Some(Json.Number(now / 1_000_000))
    && Json.Member(o, "exp") == Some(Json.Number(now / 1_000_000 + ttl))
    && Json.Member(o, "ref") == Some(Json.Boolean(isRefresh))
    && Json.Member(o, "iss") == Some(Json.Text("auth-service"))
    && exists jti :: Json.Member(o, "jti") == Some(Json.Text(jti)) && Base64Url.Decode(jti) == Some(random)
  }

  lemma {:induction false} PayloadClaims(svc: Service, user: int, isRefresh: bool, ttl: nat, now: Time, random: string)
    requires Base64Url.IsBytes(random)
    ensures Claims(PayloadObject(user, isRefresh, Seconds(now), Expiry(now, ttl), Base64Url.Encode(random, svc.pad)),
      user, isRefresh, ttl, now, random)
  {
    var jti := Base64Url.Encode(random, svc.pad);
    var o := PayloadObject(user, isRefresh, Seconds(now), Expiry(now, ttl), jti);
    PayloadMembers(user, isRefresh, Seconds(now), Expiry(now, ttl), jti);
    Skip(o, "iat", 1);
    Skip(o, "jti", 5);
    Base64Url.DecodeEncode(random, svc.pad);
    WholeSecondsLater(now, ttl);
    hide Base64Url.Encode, Base64Url.Decode, Json.Member, Expiry, Seconds;
  }

  /** The claims of a generated token, read back from its text. */
  lemma ClaimsRead(svc: Service, user: int, isRefresh: bool, ttl: nat, now: Time, random: string)
    requires MacYieldsBytes(svc) && Base64Url.IsBytes(random) && FitsInt64(user)
    ensures var parts := TokenParts(Generate(svc, user, isRefresh, ttl, now, random));
      && parts.Some?
      && Json.Member(parts.value.0, "alg") == Some(Json.Text("HS256"))
      && Json.Member(parts.value.0, "typ") == Some(Json.Text("JWT"))
      && Claims(parts.value.1, user, isRefresh, ttl, now, random)
  {
    hide *;
    GeneratedReads(svc, user, isRefresh, ttl, now, random);
    PayloadClaims(svc, user, isRefresh, ttl, now, random);
    HeaderMembers();
    PartsRead(svc, Generate(svc, user, isRefresh, ttl, now, random), HeaderObject(),
      PayloadObject(user, isRefresh, Seconds(now), Expiry(now, ttl), Base64Url.Encode(random, svc.pad)));
  }

  lemma PartsRead(svc: Service, token: string, header: Json.Object, payload: Json.Object)
    requires Reads(svc, token, header, payload)
    ensures TokenParts(token) == Some((header, payload))
  {
    hide Base64Url.Decode, ReadPart, Find, FindLast;
    assert token[..FindLast(token, '.').value][..Find(token, '.').value] == token[..Find(token, '.').value];
  }

  lemma {:induction false} HeaderMembers()
    ensures Json.Member(HeaderObject(), "alg") == Some(Json.Text("HS256"))
    ensures Json.Member(HeaderObject(), "typ") == Some(Json.Text("JWT"))
  {
    Skip(HeaderObject(), "alg", 0);
    Skip(HeaderObject(), "typ", 1);
  }

  lemma WholeSecondsLater(now: Time, ttl: nat)
    ensures Seconds(now) == now / 1_000_000 && Expiry(now, ttl) == now / 1_000_000 + ttl
  {
  }

  /** The signature over everything before the last dot is the service's. */
  predicate Signed(svc: Service, token: string) {
    var last := FindLast(token, '.');
    last.Some? && Base64Url.Decode(token[last.value + 1..]) == Some(svc.mac(token[..last.value]))
  }

  /** The claims a token needs besides its signature: this algorithm and issuer, and a numeric expiry. */
  predicate WellIssued(token: string) {
    && TokenParts(token).Some?
    && var (header, claims) := TokenParts(token).value;
    && Json.Member(header, "alg") == Some(Json.Text("HS256"))
    && Json.Member(claims, "iss") == Some(Json.Text("auth-service"))
    && Json.Member(claims, "exp").Some? && Json.Member(claims, "exp").value.Number?
    && FitsInt64(Json.Member(claims, "exp").value.i)
  }

  function ExpiryClaim(token: string): int
    requires WellIssued(token)
  {
    Json.Member(TokenParts(token).value.1, "exp").value.i
  }

  /** The check as a whole: expired is exactly a signed and well issued token whose expiry second is
      over; valid, before that, with a subject and a kind to report; all others are invalid. */
  lemma ValidatesExactly(svc: Service, token: string, now: Time)
    ensures ValidateToken(svc, token, now).Expired? <==>
      Signed(svc, token) && WellIssued(token) && ExpiryClaim(token) < now / 1_000_000
    ensures forall user, kind :: ValidateToken(svc, token, now) == Valid(Payload(user, kind)) <==>
      && Signed(svc, token) && WellIssued(token) && ExpiryClaim(token) >= now / 1_000_000
      && Json.Member(TokenParts(token).value.1, "ref") == Some(Json.Boolean(kind))
      && Subject(TokenParts(token).value.1) == Some(user)
  {
    hide Base64Url.Decode, ReadPart, Find, FindLast, Json.Member, Subject;
    var first, last := Find(token, '.'), FindLast(token, '.');
    if first.Some? && last != first {
      assert token[..last.value][..first.value] == token[..first.value];
      assert token[..last.value][first.value + 1..] == token[first.value + 1..last.value];
    }
  }

  /** The kind check: a token passes for its own kind only. */
  lemma TokenKinds(svc: Service, user: int, isRefresh: bool, ttl: nat, now: Time, random: string, later: Time)
    requires MacYieldsBytes(svc) && Base64Url.IsBytes(random) && FitsInt64(user) && FitsInt64(Expiry(now, ttl))
    ensures var token := Generate(svc, user, isRefresh, ttl, now, random);
      && (ValidateAccess(svc, token, later) == Valid(Payload(user, isRefresh))
        <==> !isRefresh && Seconds(later) <= Expiry(now, ttl))
      && (ValidateRefresh(svc, token, later) == Some(Payload(user, true))
        <==> isRefresh && Seconds(later) <= Expiry(now, ttl))
  {
    hide Generate, Expiry, Seconds, ValidateToken;
    TokenRoundTrip(svc, user, isRefresh, ttl, now, random, later);
  }

  /** RFC 7519 refuses a token on or after its expiration time. The token check alone accepts it
      for up to one more second: with `later` at or past the expiry it still says valid exactly
      when the expiry second is not over. */
  lemma TokenCheckOutlivesExpiry(svc: Service, user: int, isRefresh: bool, ttl: nat, now: Time, random: string,
      later: Time)
    requires MacYieldsBytes(svc) && Base64Url.IsBytes(random) && FitsInt64(user) && FitsInt64(Expiry(now, ttl))
    requires later >= Expiry(now, ttl) * TICKS_PER_SECOND
    ensures ValidateToken(svc, Generate(svc, user, isRefresh, ttl, now, random), later).Valid?
       <==> later < (Expiry(now, ttl) + 1) * TICKS_PER_SECOND
  {
    hide Generate, ValidateToken;
    TokenRoundTrip(svc, user, isRefresh, ttl, now, random, later);
  }

  /** Whatever is accepted carries the service's own signature over everything before the last dot. */
  lemma OnlySignedTokensPass(svc: Service, token: string, now: Time)
    requires !ValidateToken(svc, token, now).Invalid?
    ensures exists signed, signature ::
      token == signed + "." + signature && Base64Url.Decode(signature) == Some(svc.mac(signed))
  {
    hide CheckClaims, ReadPart, Base64Url.Decode;
    var last := FindLast(token, '.').value;
    assert token == token[..last] + "." + token[last + 1..];
  }
}
