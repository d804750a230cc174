/** The server_name a first flight asks for (src/gate.rs; section 4 of RFC 8446, section 3 of RFC 6066). */
module ClientHello {
  import opened Bytes

  const CLIENT_HELLO: nat := 1
  const SERVER_NAME_EXTENSION: nat := 0
  const HOST_NAME: nat := 0

  // ---------------------------------------------------------------- reading

  /** Two digits of a big-endian number. */
  function Wide(high: nat, low: nat): nat { 256 * high + low }

  /** The first `n` bytes and the rest, if there are that many. */
  function Take(s: seq<byte>, n: nat): Option<(seq<byte>, seq<byte>)> {
    if n <= |s| then Some((s[..n], s[n..])) else None
  }

  /** A big-endian length of `width` bytes and then that many bytes. */
  function Vector(s: seq<byte>, width: nat): (r: Option<(seq<byte>, seq<byte>)>)
    requires 1 <= width <= 2
    ensures r.Some? ==> |r.value.0| + |r.value.1| + width == |s|
  {
    if |s| < width then None
    else if width == 1 then Take(s[1..], s[0])
    else Take(s[2..], Wide(s[0], s[1]))
  }

  /** The first host_name of a server name list. */
  function FindHost(list: seq<byte>): Option<seq<byte>>
    decreases |list|
  {
    if list == [] then None else
    match Vector(list[1..], 2)
    case None => None
    case Some((name, rest)) => if list[0] == HOST_NAME then Some(name) else FindHost(rest)
  }

  function HostName(extension: seq<byte>): Option<seq<byte>> {
    match Vector(extension, 2)
    case None => None
    case Some((list, _)) => FindHost(list)
  }

  /** The host name of the first server_name extension; later ones are not looked at. */
  function FindServerName(extensions: seq<byte>): Option<seq<byte>>
    decreases |extensions|
  {
    if |extensions| < 2 then None else
    match Vector(extensions[2..], 2)
    case None => None
    case Some((data, rest)) =>
      if Wide(extensions[0], extensions[1]) == SERVER_NAME_EXTENSION then HostName(data)
      else FindServerName(rest)
  }

  /** The vectors of a ClientHello body after its version and random. */
  function ServerName(body: seq<byte>): Option<seq<byte>> {
    if |body| < 34 then None else
    match Vector(body[34..], 1)
    case None => None
    case Some((_, a)) =>
      match Vector(a, 2)
      case None => None
      case Some((_, b)) =>
        match Vector(b, 1)
        case None => None
        case Some((_, c)) =>
          match Vector(c, 2)
          case None => None
          case Some((extensions, _)) => FindServerName(extensions)
  }

  datatype FirstFlight = Truncated | NotAClientHello | Anonymous | Named(name: seq<byte>)

  /** The declared length of a handshake message. */
  function Declared(crypto: seq<byte>): nat
    requires |crypto| >= 4
  {
    Wide(Wide(crypto[1], crypto[2]), crypto[3])
  }

  function Judge(crypto: seq<byte>): FirstFlight {
    if crypto == [] then Truncated
    else if crypto[0] != CLIENT_HELLO then NotAClientHello
    else if |crypto| < 4 || |crypto| < 4 + Declared(crypto) then Truncated
    else match ServerName(crypto[4..4 + Declared(crypto)])
      case None => Anonymous
      case Some(name) => Named(name)
  }

  /** Any verdict but Truncated stands whatever else arrives. */
  lemma VerdictStands(crypto: seq<byte>, more: seq<byte>)
    requires crypto != [] && Judge(crypto) != Truncated
    ensures Judge(crypto + more) == Judge(crypto)
  {
    hide ServerName;
    if crypto[0] == CLIENT_HELLO {
      assert (crypto + more)[4..4 + Declared(crypto)] == crypto[4..4 + Declared(crypto)];
    }
  }

  /** A prefix of a ClientHello is Truncated exactly while the message is not all there. */
  lemma TruncatedExactlyWhenShort(message: seq<byte>, n: nat)
    requires |message| >= 4 && message[0] == 1 && 1 <= n <= |message|
    ensures Judge(message[..n]) == Truncated <==> n < 4 + Declared(message)
  {
    hide ServerName;
    assert message[..n][0] == message[0];
  }

  // ---------------------------------------------------------------- writing

  function U16(v: nat): seq<byte>
    requires v < 65536
  {
    [v / 256, v % 256]
  }

  function EncodeVector(data: seq<byte>, width: nat): seq<byte>
    requires 1 <= width <= 2 && |data| < if width == 1 then 256 else 65536
  {
    if width == 1 then [|data|] + data else U16(|data|) + data
  }

  datatype NameEntry = NameEntry(kind: byte, name: seq<byte>)

  datatype Extension = ServerNames(entries: seq<NameEntry>) | Other(kind: nat, data: seq<byte>)

  datatype Hello = Hello(versionAndRandom: seq<byte>, session: seq<byte>, ciphers: seq<byte>,
                         compression: seq<byte>, extensions: seq<Extension>)

  predicate LegalEntries(es: seq<NameEntry>) {
    forall i :: 0 <= i < |es| ==> |es[i].name| < 65536
  }

  function EncodeEntries(es: seq<NameEntry>): seq<byte>
    requires LegalEntries(es)
  {
    if es == [] then [] else [es[0].kind] + EncodeVector(es[0].name, 2) + EncodeEntries(es[1..])
  }

  predicate LegalExtension(e: Extension) {
    match e
    case ServerNames(es) => LegalEntries(es) && |EncodeEntries(es)| + 2 < 65536
    case Other(kind, data) => 0 < kind < 65536 && |data| < 65536
  }

  function Kind(e: Extension): nat {
    match e case ServerNames(_) => 0 case Other(kind, _) => kind
  }

  function Data(e: Extension): (d: seq<byte>)
    requires LegalExtension(e)
    ensures |d| < 65536
  {
    match e case ServerNames(es) => EncodeVector(EncodeEntries(es), 2) case Other(_, data) => data
  }

  predicate LegalExtensions(es: seq<Extension>) {
    forall i :: 0 <= i < |es| ==> LegalExtension(es[i])
  }

  function EncodeExtensions(es: seq<Extension>): seq<byte>
    requires LegalExtensions(es)
  {
    if es == [] then [] else U16(Kind(es[0])) + EncodeVector(Data(es[0]), 2) + EncodeExtensions(es[1..])
  }

  predicate LegalHello(h: Hello) {
    && |h.versionAndRandom| == 34 && |h.session| < 256 && |h.ciphers| < 65536 && |h.compression| < 256
    && LegalExtensions(h.extensions) && |EncodeExtensions(h.extensions)| < 65536
  }

  function EncodeBody(h: Hello): seq<byte>
    requires LegalHello(h)
  {
    h.versionAndRandom + EncodeVector(h.session, 1) + EncodeVector(h.ciphers, 2) + EncodeVector(h.compression, 1) +
    EncodeVector(EncodeExtensions(h.extensions), 2)
  }

  function EncodeMessage(h: Hello): seq<byte>
    requires LegalHello(h)
  {
    var body := EncodeBody(h);
    [1, |body| / 65536 % 256, |body| / 256 % 256, |body| % 256] + body
  }

  /** The first entry of kind host_name. */
  function FirstHost(es: seq<NameEntry>): Option<seq<byte>> {
    if es == [] then None else if es[0].kind == 0 then Some(es[0].name) else FirstHost(es[1..])
  }

  /** The host a ClientHello asks for: the first host_name of its first server_name extension. */
  function Asked(es: seq<Extension>): Option<seq<byte>> {
    if es == [] then None else
    match es[0] case ServerNames(names) => FirstHost(names) case Other(_, _) => Asked(es[1..])
  }

  lemma VectorRoundTrip(data: seq<byte>, width: nat, rest: seq<byte>)
    requires 1 <= width <= 2 && |data| < if width == 1 then 256 else 65536
    ensures Vector(EncodeVector(data, width) + rest, width) == Some((data, rest))
  {
    var s := EncodeVector(data, width) + rest;
    assert s[width..] == data + rest;
    assert (data + rest)[..|data|] == data && (data + rest)[|data|..] == rest;
  }

  lemma {:induction false} FindEncodedHost(es: seq<NameEntry>)
    requires LegalEntries(es)
    ensures FindHost(EncodeEntries(es)) == FirstHost(es)
  {
    hide EncodeVector, Vector;
    if es != [] {
      var rest := EncodeEntries(es[1..]);
      var v := EncodeVector(es[0].name, 2);
      assert EncodeEntries(es) == [es[0].kind] + (v + rest);
      assert EncodeEntries(es)[1..] == v + rest;
      VectorRoundTrip(es[0].name, 2, rest);
      FindEncodedHost(es[1..]);
    }
  }

  lemma {:induction false} FindEncodedServerName(es: seq<Extension>)
    requires LegalExtensions(es)
    ensures FindServerName(EncodeExtensions(es)) == Asked(es)
  {
    hide EncodeVector, Vector;
    if es != [] {
      var rest := EncodeExtensions(es[1..]);
      assert LegalExtension(es[0]);
      var k, v := U16(Kind(es[0])), EncodeVector(Data(es[0]), 2);
      assert EncodeExtensions(es) == k + (v + rest);
      assert EncodeExtensions(es)[2..] == v + rest;
      VectorRoundTrip(Data(es[0]), 2, rest);
      match es[0]
      case ServerNames(names) =>
        VectorRoundTrip(EncodeEntries(names), 2, []);
        assert EncodeVector(EncodeEntries(names), 2) + [] == Data(es[0]);
        FindEncodedHost(names);
      case Other(_, _) =>
        FindEncodedServerName(es[1..]);
    }
  }

  lemma ServerNameOfBody(h: Hello)
    requires LegalHello(h)
    ensures ServerName(EncodeBody(h)) == Asked(h.extensions)
  {
    hide EncodeVector, Vector;
    var extensions := EncodeExtensions(h.extensions);
    var d := EncodeVector(extensions, 2) + [];
    var c := EncodeVector(h.compression, 1) + d;
    var b := EncodeVector(h.ciphers, 2) + c;
    var a := EncodeVector(h.session, 1) + b;
    assert EncodeBody(h) == h.versionAndRandom + a;
    assert EncodeBody(h)[34..] == a;
    VectorRoundTrip(h.session, 1, b);
    VectorRoundTrip(h.ciphers, 2, c);
    VectorRoundTrip(h.compression, 1, d);
    VectorRoundTrip(extensions, 2, []);
    FindEncodedServerName(h.extensions);
  }

  lemma BodyFitsLength(h: Hello)
    requires LegalHello(h)
    ensures |EncodeBody(h)| < 0x100_0000
  {
  }

  lemma ThreeByteLength(n: nat)
    requires n < 0x100_0000
    ensures 65536 * (n / 65536 % 256) + 256 * (n / 256 % 256) + n % 256 == n
  {
  }

  /** Every well-formed ClientHello, whatever follows it, is read as asking for the host it asks for. */
  lemma HelloIsRead(h: Hello, more: seq<byte>)
    requires LegalHello(h)
    ensures Judge(EncodeMessage(h) + more) ==
      match Asked(h.extensions) case None => Anonymous case Some(name) => Named(name)
  {
    hide EncodeBody, ServerName;
    var m, body := EncodeMessage(h), EncodeBody(h);
    BodyFitsLength(h);
    ThreeByteLength(|body|);
    ServerNameOfBody(h);
    assert m[4..4 + |body|] == body;
    assert Declared(m) == |body|;
    VerdictStands(m, more);
  }

  // ---------------------------------------------------------------- exactly what names a host

  lemma VectorExactly(s: seq<byte>, width: nat)
    requires 1 <= width <= 2 && Vector(s, width).Some?
    ensures var (data, rest) := Vector(s, width).value;
      |data| < (if width == 1 then 256 else 65536) && s == EncodeVector(data, width) + rest
  {
    var n := if width == 1 then s[0] else Wide(s[0], s[1]);
    assert width == 2 ==> U16(n) == s[..2];
    assert s == s[..width] + s[width..][..n] + s[width..][n..];
  }

  ghost predicate NoHost(es: seq<NameEntry>) { LegalEntries(es) && forall i :: 0 <= i < |es| ==> es[i].kind != 0 }

  /** A list that has `name` as its first host_name, after entries of other kinds and before anything. */
  function HostList(before: seq<NameEntry>, name: seq<byte>, rest: seq<byte>): seq<byte>
    requires LegalEntries(before) && |name| < 65536
  {
    EncodeEntries(before) + ([0] + EncodeVector(name, 2) + rest)
  }

  lemma {:induction false} HostIsFound(before: seq<NameEntry>, name: seq<byte>, rest: seq<byte>)
    requires NoHost(before) && |name| < 65536
    ensures FindHost(HostList(before, name, rest)) == Some(name)
  {
    hide EncodeVector, Vector;
    var s := HostList(before, name, rest);
    if before == [] {
      assert s[1..] == EncodeVector(name, 2) + rest;
      VectorRoundTrip(name, 2, rest);
    } else {
      var e, more := before[0], HostList(before[1..], name, rest);
      assert s == [e.kind] + (EncodeVector(e.name, 2) + more);
      assert s[1..] == EncodeVector(e.name, 2) + more;
      VectorRoundTrip(e.name, 2, more);
      HostIsFound(before[1..], name, rest);
    }
  }

  lemma {:induction false} FoundHostIsThere(list: seq<byte>) returns (before: seq<NameEntry>, rest: seq<byte>)
    requires FindHost(list).Some?
    ensures NoHost(before) && |FindHost(list).value| < 65536 && list == HostList(before, FindHost(list).value, rest)
    decreases |list|
  {
    hide EncodeVector, Vector;
    VectorExactly(list[1..], 2);
    var (name, more) := Vector(list[1..], 2).value;
    if list[0] == HOST_NAME {
      before, rest := [], more;
      assert list == [0] + (EncodeVector(name, 2) + more);
    } else {
      var later;
      later, rest := FoundHostIsThere(more);
      before := [NameEntry(list[0], name)] + later;
      assert before[1..] == later;
      assert list == [list[0]] + (EncodeVector(name, 2) + more);
    }
  }

  ghost predicate NoServerName(es: seq<Extension>) { LegalExtensions(es) && forall i :: 0 <= i < |es| ==> es[i].Other? }

  /** Extensions with the first server_name extension after others, its data as given, and before anything. */
  function ExtensionList(before: seq<Extension>, data: seq<byte>, rest: seq<byte>): seq<byte>
    requires LegalExtensions(before) && |data| < 65536
  {
    EncodeExtensions(before) + ([0, 0] + EncodeVector(data, 2) + rest)
  }

  lemma {:induction false} ServerNameIsFound(before: seq<Extension>, data: seq<byte>, rest: seq<byte>)
    requires NoServerName(before) && |data| < 65536
    ensures FindServerName(ExtensionList(before, data, rest)) == HostName(data)
  {
    hide EncodeVector, Vector, HostName;
    var s := ExtensionList(before, data, rest);
    if before == [] {
      assert s[2..] == EncodeVector(data, 2) + rest;
      VectorRoundTrip(data, 2, rest);
    } else {
      var e, more := before[0], ExtensionList(before[1..], data, rest);
      assert e.Other? && LegalExtension(e);
      assert s == U16(e.kind) + (EncodeVector(e.data, 2) + more);
      assert s[2..] == EncodeVector(e.data, 2) + more;
      VectorRoundTrip(e.data, 2, more);
      ServerNameIsFound(before[1..], data, rest);
    }
  }

  lemma {:induction false} FoundServerNameIsThere(extensions: seq<byte>)
    returns (before: seq<Extension>, data: seq<byte>, rest: seq<byte>)
    requires FindServerName(extensions).Some?
    ensures NoServerName(before) && |data| < 65536 && extensions == ExtensionList(before, data, rest)
    ensures HostName(data) == FindServerName(extensions)
    decreases |extensions|
  {
    hide EncodeVector, Vector, HostName, Wide, U16;
    VectorExactly(extensions[2..], 2);
    var kind := Wide(extensions[0], extensions[1]);
    var (d, more) := Vector(extensions[2..], 2).value;
    TwoDigits(extensions[0], extensions[1]);
    assert extensions == U16(kind) + (EncodeVector(d, 2) + more);
    if kind == SERVER_NAME_EXTENSION {
      before, data, rest := [], d, more;
      assert extensions == EncodeExtensions(before) + (U16(0) + EncodeVector(data, 2) + rest);
    } else {
      var later;
      later, data, rest := FoundServerNameIsThere(more);
      before := [Other(kind, d)] + later;
      ExtensionFirst(kind, d, later);
      assert extensions == EncodeExtensions(before) + ([0, 0] + EncodeVector(data, 2) + rest);
    }
  }

  lemma ExtensionFirst(kind: nat, d: seq<byte>, later: seq<Extension>)
    requires 0 < kind < 65536 && |d| < 65536 && NoServerName(later)
    ensures var all := [Other(kind, d)] + later;
      NoServerName(all) && EncodeExtensions(all) == U16(kind) + EncodeVector(d, 2) + EncodeExtensions(later)
  {
    hide EncodeVector, U16;
    var all := [Other(kind, d)] + later;
    assert all[1..] == later;
  }

  lemma TwoDigits(a: byte, b: byte)
    ensures Wide(a, b) < 65536 && U16(Wide(a, b)) == [a, b] && U16(0) == [0, 0]
  {
  }

  /** Every part of a stream that begins with a whole ClientHello naming a host. */
  datatype Layout = Layout(
    versionAndRandom: seq<byte>, session: seq<byte>, ciphers: seq<byte>, compression: seq<byte>,
    before: seq<Extension>, entries: seq<NameEntry>, name: seq<byte>,
    moreEntries: seq<byte>, moreData: seq<byte>, moreExtensions: seq<byte>, moreBody: seq<byte>)
  {
    ghost predicate Fits() {
      && |versionAndRandom| == 34 && |session| < 256 && |ciphers| < 65536 && |compression| < 256
      && NoServerName(before) && NoHost(entries) && |name| < 65536
      && |List()| < 65536 && |Data()| < 65536 && |Extensions()| < 65536
    }

    ghost function List(): seq<byte> {
      if LegalEntries(entries) && |name| < 65536 then HostList(entries, name, moreEntries) else []
    }

    ghost function Data(): seq<byte> {
      if |List()| < 65536 then EncodeVector(List(), 2) + moreData else []
    }

    ghost function Extensions(): seq<byte> {
      if LegalExtensions(before) && |Data()| < 65536 then ExtensionList(before, Data(), moreExtensions) else []
    }

    ghost function Body(): seq<byte>
      requires Fits()
    {
      versionAndRandom + (EncodeVector(session, 1) + (EncodeVector(ciphers, 2) + (EncodeVector(compression, 1) +
      (EncodeVector(Extensions(), 2) + moreBody))))
    }
  }

  lemma NamedBody(l: Layout)
    requires l.Fits()
    ensures ServerName(l.Body()) == Some(l.name)
  {
    hide EncodeVector, Vector, HostList, ExtensionList;
    var d := EncodeVector(l.Extensions(), 2) + l.moreBody;
    var c := EncodeVector(l.compression, 1) + d;
    var b := EncodeVector(l.ciphers, 2) + c;
    var a := EncodeVector(l.session, 1) + b;
    assert l.Body()[34..] == a;
    VectorRoundTrip(l.session, 1, b);
    VectorRoundTrip(l.ciphers, 2, c);
    VectorRoundTrip(l.compression, 1, d);
    VectorRoundTrip(l.Extensions(), 2, l.moreBody);
    ServerNameIsFound(l.before, l.Data(), l.moreExtensions);
    VectorRoundTrip(l.List(), 2, l.moreData);
    HostIsFound(l.entries, l.name, l.moreEntries);
  }

  lemma BodyOfNamed(body: seq<byte>) returns (l: Layout)
    requires ServerName(body).Some?
    ensures l.Fits() && l.name == ServerName(body).value && body == l.Body()
  {
    hide EncodeVector, Vector, HostList, ExtensionList;
    VectorExactly(body[34..], 1);
    var (session, a) := Vector(body[34..], 1).value;
    VectorExactly(a, 2);
    var (ciphers, b) := Vector(a, 2).value;
    VectorExactly(b, 1);
    var (compression, c) := Vector(b, 1).value;
    VectorExactly(c, 2);
    var (extensions, moreBody) := Vector(c, 2).value;
    var before, data, moreExtensions := FoundServerNameIsThere(extensions);
    VectorExactly(data, 2);
    var (list, moreData) := Vector(data, 2).value;
    var entries, moreEntries := FoundHostIsThere(list);
    l := Layout(body[..34], session, ciphers, compression, before, entries, FindHost(list).value,
                moreEntries, moreData, moreExtensions, moreBody);
    assert body == body[..34] + body[34..];
  }

  ghost predicate NamedBy(crypto: seq<byte>, l: Layout, more: seq<byte>) {
    && l.Fits() && |l.Body()| < 0x100_0000
    && crypto == Message(l.Body()) + more
  }

  /** A stream names a host exactly when it begins with a ClientHello whose first server_name extension has it first. */
  lemma NamedExactly(crypto: seq<byte>, name: seq<byte>)
    ensures Judge(crypto) == Named(name) <==> exists l, more :: NamedBy(crypto, l, more) && l.name == name
  {
    hide NamedBy, Judge;
    if Judge(crypto) == Named(name) {
      var l, more := NamedIsLaidOut(crypto);
    }
    if l, more :| NamedBy(crypto, l, more) && l.name == name {
      LaidOutIsNamed(crypto, l, more);
    }
  }

  /** A handshake message of type 1 with this body. */
  function Message(body: seq<byte>): seq<byte>
    requires |body| < 0x100_0000
  {
    [1, |body| / 65536, |body| / 256 % 256, |body| % 256] + body
  }

  lemma MessageIsJudged(body: seq<byte>, more: seq<byte>)
    requires |body| < 0x100_0000
    ensures Judge(Message(body) + more) == match ServerName(body) case None => Anonymous case Some(name) => Named(name)
  {
    hide ServerName;
    var s := Message(body) + more;
    ThreeByteLength(|body|);
    assert |body| / 65536 % 256 == |body| / 65536;
    assert Declared(s) == |body|;
    assert s[4..4 + |body|] == body;
  }

  lemma LaidOutIsNamed(crypto: seq<byte>, l: Layout, more: seq<byte>)
    requires NamedBy(crypto, l, more)
    ensures Judge(crypto) == Named(l.name)
  {
    hide ServerName, Judge, Layout.Fits, Layout.Body, Message;
    MessageIsJudged(l.Body(), more);
    NamedBody(l);
  }

  lemma NamedIsLaidOut(crypto: seq<byte>) returns (l: Layout, more: seq<byte>)
    requires Judge(crypto).Named?
    ensures NamedBy(crypto, l, more) && l.name == Judge(crypto).name
  {
    hide ServerName, Layout.Fits, Layout.Body, Wide;
    var n := Declared(crypto);
    var body := crypto[4..4 + n];
    more := crypto[4 + n..];
    l := BodyOfNamed(body);
    Digits(crypto[1], crypto[2], crypto[3]);
    assert crypto[..4] == [1, n / 65536, n / 256 % 256, n % 256];
    assert crypto == crypto[..4] + body + more;
  }

  lemma Digits(a: byte, b: byte, c: byte)
    ensures var n := Wide(Wide(a, b), c); n < 0x100_0000 && n / 65536 == a && n / 256 % 256 == b && n % 256 == c
  {
    assert Wide(Wide(a, b), c) / 256 == Wide(a, b);
  }

  /** The other verdicts, by the bytes: no stream, another message, a message that is not all there, and the rest. */
  lemma OtherVerdicts(crypto: seq<byte>)
    ensures crypto == [] ==> Judge(crypto) == Truncated
    ensures crypto != [] ==> (Judge(crypto) == NotAClientHello <==> crypto[0] != 1)
    ensures crypto != [] && crypto[0] == 1 ==> (Judge(crypto) == Truncated <==>
      |crypto| < 4 || |crypto| < 4 + 65536 * (crypto[1] as int) + 256 * (crypto[2] as int) + crypto[3])
    ensures Judge(crypto) == Anonymous <==>
      crypto != [] && crypto[0] == 1 && Judge(crypto) != Truncated && !exists name :: Judge(crypto) == Named(name)
  {
    hide ServerName;
  }

  // ---------------------------------------------------------------- the cursor

  /** A cursor over bytes; a read that does not fit leaves it where it was. */
  class Reader {
    var bytes: seq<byte>

    constructor (bytes: seq<byte>)
      ensures this.bytes == bytes
    {
      this.bytes := bytes;
    }

    method TakeBytes(count: nat) returns (r: Option<seq<byte>>)
      modifies this
      ensures r.None? <==> |old(bytes)| < count
      ensures r.None? ==> bytes == old(bytes)
      ensures r.Some? ==> r.value == old(bytes)[..count] && bytes == old(bytes)[count..]
    {
      if |bytes| < count {
        return None;
      }
      r := Some(bytes[..count]);
      bytes := bytes[count..];
    }

    /** A length of one or two bytes and then that many bytes. */
    method TakeVector(width: nat) returns (r: Option<seq<byte>>)
      requires 1 <= width <= 2
      modifies this
      ensures r.None? <==> Vector(old(bytes), width).None?
      ensures r.Some? ==> Vector(old(bytes), width) == Some((r.value, bytes))
    {
      var prefix := TakeBytes(width);
      if prefix == None {
        return None;
      }
      var length: nat := if width == 1 then prefix.value[0] else Wide(prefix.value[0], prefix.value[1]);
      r := TakeBytes(length);
    }
  }

  method ReadHostName(extension: seq<byte>) returns (r: Option<seq<byte>>)
    ensures r == HostName(extension)
  {
    hide Vector;
    var outer := new Reader(extension);
    var list := outer.TakeVector(2);
    if list == None {
      return None;
    }
    var reader := new Reader(list.value);
    while reader.bytes != []
      invariant FindHost(list.value) == FindHost(reader.bytes)
      decreases |reader.bytes|
    {
      var kind := reader.TakeBytes(1);
      var name := reader.TakeVector(2);
      if name == None {
        return None;
      }
      if kind.value[0] == HOST_NAME {
        return name;
      }
    }
    r := None;
  }

  method ReadServerName(body: seq<byte>) returns (r: Option<seq<byte>>)
    ensures r == ServerName(body)
  {
    hide Vector;
    var outer := new Reader(body);
    var fixed := outer.TakeBytes(2);
    if fixed == None {
      return None;
    }
    fixed := outer.TakeBytes(32);
    if fixed == None {
      return None;
    }
    assert outer.bytes == body[34..];
    var session := outer.TakeVector(1);
    if session == None {
      return None;
    }
    var ciphers := outer.TakeVector(2);
    if ciphers == None {
      return None;
    }
    var compression := outer.TakeVector(1);
    if compression == None {
      return None;
    }
    var extensions := outer.TakeVector(2);
    if extensions == None {
      return None;
    }
    r := ScanExtensions(extensions.value);
  }

  method ScanExtensions(extensions: seq<byte>) returns (r: Option<seq<byte>>)
    ensures r == FindServerName(extensions)
  {
    hide Vector, HostName;
    var reader := new Reader(extensions);
    while reader.bytes != []
      invariant FindServerName(extensions) == FindServerName(reader.bytes)
      decreases |reader.bytes|
    {
      var kind := reader.TakeBytes(2);
      if kind == None {
        return None;
      }
      var data := reader.TakeVector(2);
      if data == None {
        return None;
      }
      if Wide(kind.value[0], kind.value[1]) == SERVER_NAME_EXTENSION {
        r := ReadHostName(data.value);
        return;
      }
    }
    r := None;
  }

  method ReadFirstFlight(crypto: seq<byte>) returns (r: FirstFlight)
    ensures r == Judge(crypto)
  {
    var reader := new Reader(crypto);
    var kind := reader.TakeBytes(1);
    if kind == None {
      return Truncated;
    }
    if kind.value[0] != CLIENT_HELLO {
      return NotAClientHello;
    }
    var length := reader.TakeBytes(3);
    if length == None {
      return Truncated;
    }
    assert length.value == crypto[1..4] && reader.bytes == crypto[4..];
    var declared := Wide(Wide(length.value[0], length.value[1]), length.value[2]);
    assert declared == Declared(crypto);
    var body := reader.TakeBytes(declared);
    if body == None {
      return Truncated;
    }
    assert body.value == crypto[4..4 + declared];
    var name := ReadServerName(body.value);
    r := if name == None then Anonymous else Named(name.value);
  }
}
