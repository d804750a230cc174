/** HTTP Basic authentication (RFC 7617), as src/auth.rs checks a request's credential values. */
module Auth {
  import opened Bytes
  import Base64

  const COLON: byte := 58
  const SPACE: byte := 32

  datatype User = User(name: seq<byte>, password: seq<byte>)

  /** A field value, and whether its bytes are valid UTF-8. */
  datatype FieldValue = FieldValue(bytes: seq<byte>, text: bool)

  datatype Fault = NotText | NoScheme | NotBasic | NotBase64 | NoColon

  datatype Denied = Missing | Malformed(fault: Fault) | Rejected(username: seq<byte>)

  // ---------------------------------------------------------------- one value

  /** The first position of a byte, or the length. */
  function IndexOf(s: seq<byte>, b: byte): (n: nat)
    ensures n <= |s| && (n < |s| ==> s[n] == b)
  {
    if s == [] || s[0] == b then 0 else 1 + IndexOf(s[1..], b)
  }

  function TrimSpaces(s: seq<byte>): seq<byte> {
    if s != [] && s[0] == SPACE then TrimSpaces(s[1..]) else s
  }

  function Lower(b: byte): byte { if 65 <= b <= 90 then b + 32 else b }

  /** "basic", in any case. */
  predicate IsBasic(s: seq<byte>) {
    |s| == 5 && Lower(s[0]) == 98 && Lower(s[1]) == 97 && Lower(s[2]) == 115 && Lower(s[3]) == 105 && Lower(s[4]) == 99
  }

  function BasicToken(value: seq<byte>): Result<seq<byte>, Denied> {
    var at := IndexOf(value, SPACE);
    if at == |value| then Err(Malformed(NoScheme))
    else if !IsBasic(value[..at]) then Err(Malformed(NotBasic))
    else Ok(TrimSpaces(value[at + 1..]))
  }

  /** The user-id, colon and password a value spells, or why it spells none. */
  function Credentials(value: FieldValue): Result<seq<byte>, Denied> {
    if !value.text then Err(Malformed(NotText)) else
    match BasicToken(value.bytes)
    case Err(d) => Err(d)
    case Ok(token) =>
      match Base64.Decode(token)
      case None => Err(Malformed(NotBase64))
      case Some(c) => Ok(c)
  }

  /** The name, a colon and the password. */
  function Joined(u: User): seq<byte> { u.name + [58] + u.password }

  /** The last user whose name and password both match; the scan never stops early. */
  function Verify(users: seq<User>, name: seq<byte>, password: seq<byte>): Option<seq<byte>> {
    if users == [] then None else
    var last := users[|users| - 1];
    if last.name == name && last.password == password then Some(last.name)
    else Verify(users[..|users| - 1], name, password)
  }

  function Check(users: seq<User>, value: FieldValue): Result<seq<byte>, Denied> {
    match Credentials(value)
    case Err(d) => Err(d)
    case Ok(c) =>
      var colon := IndexOf(c, COLON);
      if colon == |c| then Err(Malformed(NoColon)) else
      match Verify(users, c[..colon], c[colon + 1..])
      case None => Err(Rejected(c[..colon]))
      case Some(name) => Ok(name)
  }

  /** What the configuration guarantees of its users (section 2 of RFC 7617): no name holds a colon. */
  ghost predicate Configured(users: seq<User>) {
    forall i :: 0 <= i < |users| ==> 58 !in users[i].name
  }

  /** The value is exactly one configured user's credentials. */
  ghost predicate SpelledBy(users: seq<User>, value: FieldValue, u: User) {
    u in users && Credentials(value) == Ok(Joined(u))
  }

  lemma {:induction false} VerifyFinds(users: seq<User>, name: seq<byte>, password: seq<byte>)
    ensures Verify(users, name, password) == if User(name, password) in users then Some(name) else None
  {
    if users != [] {
      VerifyFinds(users[..|users| - 1], name, password);
      assert users == users[..|users| - 1] + [users[|users| - 1]];
    }
  }

  lemma {:induction false} IndexOfFirst(name: seq<byte>, b: byte, rest: seq<byte>)
    requires b !in name
    ensures IndexOf(name + [b] + rest, b) == |name|
  {
    var s := name + [b] + rest;
    if name != [] {
      IndexOfFirst(name[1..], b, rest);
      assert s[1..] == name[1..] + [b] + rest;
      assert name[0] in name;
    }
  }

  /** A value is accepted, for a user, exactly when it spells that configured user. */
  lemma CheckAccepts(users: seq<User>, value: FieldValue, name: seq<byte>)
    requires Configured(users)
    ensures Check(users, value) == Ok(name) <==> exists u :: SpelledBy(users, value, u) && u.name == name
  {
    hide Credentials, IndexOf, Verify;
    if Credentials(value).Ok? {
      var c := Credentials(value).value;
      var colon := IndexOf(c, COLON);
      if colon < |c| {
        var u := User(c[..colon], c[colon + 1..]);
        assert c == Joined(u);
        VerifyFinds(users, u.name, u.password);
        if u in users {
          assert SpelledBy(users, value, u);
        }
      }
      forall u | SpelledBy(users, value, u) ensures Check(users, value) == Ok(u.name) {
        SpelledIsAccepted(users, value, u);
      }
    }
  }

  lemma SpelledIsAccepted(users: seq<User>, value: FieldValue, u: User)
    requires Configured(users) && SpelledBy(users, value, u)
    ensures Check(users, value) == Ok(u.name)
  {
    hide Credentials, IndexOf, Verify;
    var i :| 0 <= i < |users| && users[i] == u;
    IndexOfFirst(u.name, COLON, u.password);
    var c := Joined(u);
    assert c[..|u.name|] == u.name && c[|u.name| + 1..] == u.password;
    VerifyFinds(users, u.name, u.password);
  }

  // ---------------------------------------------------------------- one request

  /** One entry per refused value; a request with none draws the single Missing entry. */
  datatype Denials = Denials(reported: Denied, others: seq<Denied>)
  {
    function Charged(): nat { 1 + |others| }
  }

  /** The values, Proxy-Authorization before Authorization, tried in order until one matches. */
  method Authenticate(users: seq<User>, values: seq<FieldValue>)
    returns (r: Result<Option<seq<byte>>, Denials>)
    ensures users == [] ==> r == Ok(None)
    ensures users != [] ==>
      match r
      case Ok(None) => false
      case Ok(Some(name)) => exists k :: 0 <= k < |values| && Check(users, values[k]) == Ok(name) &&
                               forall j :: 0 <= j < k ==> Check(users, values[j]).Err?
      case Err(d) =>
        && d.Charged() == Max(1, |values|)
        && (values == [] ==> d.reported == Missing)
        && forall j :: 0 <= j < |values| ==>
             Check(users, values[j]) == Err(if j == 0 then d.reported else d.others[j - 1])
  {
    hide Check;
    if users == [] {
      return Ok(None);
    }
    var denials: Option<Denials> := None;
    for i := 0 to |values|
      invariant denials.None? <==> i == 0
      invariant denials.Some? ==> denials.value.Charged() == i
      invariant forall j :: 0 <= j < i ==>
        Check(users, values[j]) == Err(if j == 0 then denials.value.reported else denials.value.others[j - 1])
    {
      var checked := CheckValue(users, values[i]);
      match checked
      case Ok(name) => return Ok(Some(name));
      case Err(reason) =>
        denials := if denials.None? then Some(Denials(reason, []))
                   else Some(denials.value.(others := denials.value.others + [reason]));
    }
    r := Err(if denials.None? then Denials(Missing, []) else denials.value);
  }

  method CheckValue(users: seq<User>, value: FieldValue) returns (r: Result<seq<byte>, Denied>)
    ensures r == Check(users, value)
  {
    hide Base64.Decode;
    if !value.text {
      return Err(Malformed(NotText));
    }
    var token := BasicToken(value.bytes);
    if token.Err? {
      return Err(token.error);
    }
    var decoded := Base64.DecodeBase64(token.value);
    if decoded == None {
      return Err(Malformed(NotBase64));
    }
    var c := decoded.value;
    var colon := IndexOf(c, COLON);
    if colon == |c| {
      return Err(Malformed(NoColon));
    }
    var matched := VerifyPair(users, c[..colon], c[colon + 1..]);
    r := if matched == None then Err(Rejected(c[..colon])) else Ok(matched.value);
  }

  method VerifyPair(users: seq<User>, name: seq<byte>, password: seq<byte>) returns (matched: Option<seq<byte>>)
    ensures matched == Verify(users, name, password)
  {
    matched := None;
    for i := 0 to |users|
      invariant matched == Verify(users[..i], name, password)
    {
      assert users[..i + 1][..i] == users[..i];
      if users[i].name == name && users[i].password == password {
        matched := Some(users[i].name);
      }
    }
    assert users[..|users|] == users;
  }

  /**
   A request authenticates exactly when one of its values decodes to a configured user's name,
   a colon and that user's password; otherwise it is charged one failure per value, and at least one.
   */
  method AuthenticateConfigured(users: seq<User>, values: seq<FieldValue>)
    returns (r: Result<Option<seq<byte>>, Denials>)
    requires users != [] && Configured(users)
    ensures r.Ok? <==> exists k, u :: 0 <= k < |values| && SpelledBy(users, values[k], u)
    ensures r.Ok? ==> r.value.Some?
    ensures r.Ok? ==>
      exists k, u :: 0 <= k < |values| && SpelledBy(users, values[k], u) && u.name == r.value.value
    ensures r.Err? ==> r.error.Charged() == Max(1, |values|)
  {
    hide Check, SpelledBy;
    r := Authenticate(users, values);
    match r
    case Ok(Some(name)) =>
      ghost var k :| 0 <= k < |values| && Check(users, values[k]) == Ok(name);
      CheckAccepts(users, values[k], name);
    case Err(_) =>
      forall k, u | 0 <= k < |values| && SpelledBy(users, values[k], u) ensures false {
        SpelledIsAccepted(users, values[k], u);
      }
  }

  /** The five letters of the word, each in either case. */
  predicate SpellsBasic(s: seq<byte>) {
    && |s| == 5
    && (s[0] == 66 || s[0] == 98) && (s[1] == 65 || s[1] == 97) && (s[2] == 83 || s[2] == 115)
    && (s[3] == 73 || s[3] == 105) && (s[4] == 67 || s[4] == 99)
  }

  lemma BasicHasNoSpace(s: seq<byte>)
    requires SpellsBasic(s)
    ensures 32 !in s
  {
  }

  lemma IsBasicExactly(s: seq<byte>)
    ensures IsBasic(s) <==> SpellsBasic(s)
  {
  }

  /** A word without spaces, a space, any number of further ones, and a token that does not start with one. */
  function Spaced(word: seq<byte>, spaces: nat, token: seq<byte>): seq<byte> {
    word + [32] + (seq(spaces, _ => 32) + token)
  }

  lemma TokenOfSpaced(word: seq<byte>, spaces: nat, token: seq<byte>)
    requires 32 !in word && (token == [] || token[0] != 32)
    ensures BasicToken(Spaced(word, spaces, token)) == if SpellsBasic(word) then Ok(token) else Err(Malformed(NotBasic))
  {
    var pad: seq<byte> := seq(spaces, _ => 32);
    var v := Spaced(word, spaces, token);
    IndexOfFirst(word, 32, pad + token);
    assert v[..|word|] == word && v[|word| + 1..] == pad + token;
    TrimsSpaces(spaces, token);
    IsBasicExactly(word);
  }

  lemma {:induction false} IndexOfNone(s: seq<byte>, b: byte)
    requires b !in s
    ensures IndexOf(s, b) == |s|
  {
    if s != [] {
      assert s[0] in s;
      IndexOfNone(s[1..], b);
    }
  }

  /** Bytes that are not text, and text without a space. */
  lemma NoSchemeRefused(users: seq<User>, value: FieldValue)
    ensures !value.text ==> Check(users, value) == Err(Malformed(NotText))
    ensures value.text && 32 !in value.bytes ==> Check(users, value) == Err(Malformed(NoScheme))
  {
    if 32 !in value.bytes {
      IndexOfNone(value.bytes, 32);
    }
  }

  lemma CredentialsOfSpaced(word: seq<byte>, spaces: nat, token: seq<byte>)
    requires 32 !in word && (token == [] || token[0] != 32)
    ensures var r := Credentials(FieldValue(Spaced(word, spaces, token), true));
      if !SpellsBasic(word) then r == Err(Malformed(NotBasic))
      else match Base64.Decode(token) case None => r == Err(Malformed(NotBase64)) case Some(b) => r == Ok(b)
  {
    hide BasicToken, Base64.Decode, Spaced;
    TokenOfSpaced(word, spaces, token);
  }

  /** Another word before the first space, or a token that is no base64 text. */
  lemma OtherSchemeRefused(users: seq<User>, word: seq<byte>, spaces: nat, token: seq<byte>)
    requires 32 !in word && (token == [] || token[0] != 32)
    ensures var r := Check(users, FieldValue(Spaced(word, spaces, token), true));
      && (!SpellsBasic(word) ==> r == Err(Malformed(NotBasic)))
      && (SpellsBasic(word) && (forall b :: !Base64.SameButUnused(token, Base64.Encode(b))) ==> r == Err(Malformed(NotBase64)))
  {
    hide Credentials, SpellsBasic, Base64.Decode, Base64.Encode, Base64.SameButUnused;
    CredentialsOfSpaced(word, spaces, token);
    if Base64.Decode(token).Some? {
      Base64.DecodesExactly(token, Base64.Decode(token).value);
    }
  }

  /** A token that spells bytes without a colon. */
  lemma NoColonRefused(users: seq<User>, word: seq<byte>, spaces: nat, token: seq<byte>, b: seq<byte>)
    requires SpellsBasic(word) && (token == [] || token[0] != 32) && Base64.SameButUnused(token, Base64.Encode(b)) && 58 !in b
    ensures Check(users, FieldValue(Spaced(word, spaces, token), true)) == Err(Malformed(NoColon))
  {
    hide Credentials, IndexOf, Verify, Base64.Decode, Base64.Encode, Base64.SameButUnused, Spaced, SpellsBasic;
    BasicHasNoSpace(word);
    CredentialsOfSpaced(word, spaces, token);
    Base64.DecodesExactly(token, b);
    IndexOfNone(b, 58);
  }

  /** A token that spells a name, a colon and a password: accepted for a configured pair, refused under its name else. */
  lemma PairChecked(users: seq<User>, word: seq<byte>, spaces: nat, token: seq<byte>, u: User)
    requires SpellsBasic(word) && (token == [] || token[0] != 32)
    requires Base64.SameButUnused(token, Base64.Encode(Joined(u))) && 58 !in u.name
    ensures Check(users, FieldValue(Spaced(word, spaces, token), true)) ==
      if u in users then Ok(u.name) else Err(Rejected(u.name))
  {
    hide Credentials, IndexOf, Verify, Base64.Decode, Base64.Encode, Base64.SameButUnused, Spaced, SpellsBasic;
    BasicHasNoSpace(word);
    CredentialsOfSpaced(word, spaces, token);
    var c := Joined(u);
    Base64.DecodesExactly(token, c);
    IndexOfFirst(u.name, 58, u.password);
    assert c[..|u.name|] == u.name && c[|u.name| + 1..] == u.password;
    VerifyFinds(users, u.name, u.password);
    assert User(u.name, u.password) == u;
  }

  /** The usual client's value is accepted: "Basic" in any case, spaces, and the canonical base64 of its credentials. */
  lemma CanonicalValueAccepted(users: seq<User>, u: User, basic: seq<byte>, spaces: nat)
    requires 58 !in u.name && u in users && (basic == [66, 97, 115, 105, 99] || SpellsBasic(basic))
    ensures Check(users, FieldValue(Spaced(basic, spaces, Base64.Encode(Joined(u))), true)) == Ok(u.name)
  {
    hide Check, Base64.Decode, Base64.Encode, Base64.SameButUnused;
    var token := Base64.Encode(Joined(u));
    EncodingHasNoSpace(Joined(u));
    Base64.DecodeInvertsEncode(Joined(u));
    Base64.DecodesExactly(token, Joined(u));
    PairChecked(users, basic, spaces, token, u);
  }

  lemma EncodingHasNoSpace(b: seq<byte>)
    requires b != []
    ensures Base64.Encode(b) != [] && Base64.Encode(b)[0] != 32
  {
    Base64.LettersAndSextets(b[0] / 4, SPACE);
  }

  lemma {:induction false} TrimsSpaces(spaces: nat, token: seq<byte>)
    requires token == [] || token[0] != 32
    ensures var pad: seq<byte> := seq(spaces, _ => 32); TrimSpaces(pad + token) == token
  {
    var pad: seq<byte> := seq(spaces, _ => 32);
    if spaces == 0 {
      assert pad + token == token;
    } else {
      var fewer: seq<byte> := seq(spaces - 1, _ => 32);
      TrimsSpaces(spaces - 1, token);
      assert (pad + token)[1..] == fewer + token;
    }
  }
}
