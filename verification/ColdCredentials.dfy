/**
 The FRDSTD01 credential frame on standard input (src/vnc/cold_credentials.rs): reading it in whatever
 pieces it arrives, parsing it in place, and the encoding that is accepted.
 */
module ColdCredentials {
  import opened Bytes
  import opened Results
  import opened Utf8

  const MAGIC: seq<u8> := [0x46, 0x52, 0x44, 0x53, 0x54, 0x44, 0x30, 0x31]
  const HEADER_LEN := 20
  const MAX_FRAME_LEN := 1554
  const READ_LIMIT := MAX_FRAME_LEN + 1

  datatype Category =
    | InputError | ExtraError | HeaderError | MagicError | PayloadError
    | HostError | UsernameError | PasswordError | PortError

  datatype Range = Range(start: nat, end: nat)

  datatype Login = Login(host: seq<u8>, username: seq<u8>, password: seq<u8>, port: u16)

  // ---------- What is accepted ----------

  predicate IsTrimmed(t: Text) {
    t != [] ==> !IsWhitespace(t[0]) && !IsWhitespace(t[|t| - 1])
  }

  /** Text without control characters or surrounding white space. */
  predicate IsIdentity(s: seq<u8>) {
    && Decoded(s).Some?
    && (forall i :: 0 <= i < |s| ==> s[i] >= 0x20 && s[i] != 0x7f)
    && IsTrimmed(Decoded(s).value)
  }

  predicate IsPassword(s: seq<u8>) {
    Decoded(s).Some? && 0 !in s
  }

  predicate ValidLogin(l: Login) {
    && 1 <= |l.host| <= 255 && IsIdentity(l.host)
    && 1 <= |l.username| <= 255 && IsIdentity(l.username)
    && 1 <= |l.password| <= 1024 && IsPassword(l.password)
    && l.port > 0
  }

  function EncodedLogin(l: Login): (s: seq<u8>)
    requires ValidLogin(l)
    ensures |s| == HEADER_LEN + |l.host| + |l.username| + |l.password|
  {
    MAGIC + U32(8 + |l.host| + |l.username| + |l.password|)
    + U16(|l.host|) + U16(|l.username|) + U16(|l.password|) + U16(l.port)
    + l.host + l.username + l.password
  }

  // ---------- Parsing ----------

  datatype Layout = Layout(payload: u32, host: u16, username: u16, password: u16, port: u16)

  function LayoutOf(b: seq<u8>): Layout
    requires |b| >= HEADER_LEN
  {
    Layout(FromU32(b[8..12]), FromU16(b[12..14]), FromU16(b[14..16]), FromU16(b[16..18]), FromU16(b[18..20]))
  }

  datatype Parsed = Parsed(host: Range, username: Range, password: Range, port: u16) | Refused(category: Category)

  /** What is made of the bytes read; more than a frame can have are refused as such. */
  function Parse(b: seq<u8>): Parsed {
    if |b| >= READ_LIMIT then Refused(ExtraError)
    else if |b| < HEADER_LEN then Refused(HeaderError)
    else if b[..8] != MAGIC then Refused(MagicError)
    else
      var l := LayoutOf(b);
      if !(1 <= l.host <= 255) then Refused(HostError)
      else if !(1 <= l.username <= 255) then Refused(UsernameError)
      else if !(1 <= l.password <= 1024) then Refused(PasswordError)
      else if l.port == 0 then Refused(PortError)
      else if !(11 <= l.payload <= 1542) || l.payload != 8 + l.host + l.username + l.password then Refused(PayloadError)
      else if HEADER_LEN + l.host + l.username + l.password != |b| then Refused(PayloadError)
      else ParseFields(b, HEADER_LEN + l.host, HEADER_LEN + l.host + l.username, l.port)
  }

  function ParseFields(b: seq<u8>, hostEnd: nat, usernameEnd: nat, port: u16): Parsed
    requires HEADER_LEN <= hostEnd <= usernameEnd <= |b|
  {
    if !IsIdentity(b[HEADER_LEN..hostEnd]) then Refused(HostError)
    else if !IsIdentity(b[hostEnd..usernameEnd]) then Refused(UsernameError)
    else if !IsPassword(b[usernameEnd..]) then Refused(PasswordError)
    else Parsed(Range(HEADER_LEN, hostEnd), Range(hostEnd, usernameEnd), Range(usernameEnd, |b|), port)
  }

  predicate InRange(r: Range, n: nat) {
    r.start <= r.end <= n
  }

  /** The fields the ranges select. */
  function Selected(b: seq<u8>, p: Parsed): Login
    requires p.Parsed? && InRange(p.host, |b|) && InRange(p.username, |b|) && InRange(p.password, |b|)
  {
    Login(b[p.host.start..p.host.end], b[p.username.start..p.username.end], b[p.password.start..p.password.end], p.port)
  }

  /** The three ranges follow each other from the header to the end of the frame. */
  predicate Tiles(p: Parsed, n: nat) {
    && p.Parsed?
    && p.host.start == HEADER_LEN && p.host.start <= p.host.end == p.username.start
    && p.username.start <= p.username.end == p.password.start
    && p.password.start <= p.password.end == n
  }

  lemma EncodedLoginParses(l: Login)
    requires ValidLogin(l)
    ensures var b := EncodedLogin(l);
            Tiles(Parse(b), |b|) && Selected(b, Parse(b)) == l
  {
    hide U16, U32, FromU16, FromU32, IsIdentity, IsPassword;
    var b := EncodedLogin(l);
    U32RoundTrip(8 + |l.host| + |l.username| + |l.password|);
    U16RoundTrip(|l.host|);
    U16RoundTrip(|l.username|);
    U16RoundTrip(|l.password|);
    U16RoundTrip(l.port);
    assert b[..8] == MAGIC && b[8..12] == U32(8 + |l.host| + |l.username| + |l.password|);
    assert b[12..14] == U16(|l.host|) && b[14..16] == U16(|l.username|) && b[16..18] == U16(|l.password|);
    assert b[18..20] == U16(l.port);
    var hostEnd := HEADER_LEN + |l.host|;
    var usernameEnd := hostEnd + |l.username|;
    assert b[HEADER_LEN..hostEnd] == l.host && b[hostEnd..usernameEnd] == l.username;
    assert b[usernameEnd..] == l.password && b[usernameEnd..|b|] == b[usernameEnd..];
  }

  lemma ParsedLoginIsEncoded(b: seq<u8>)
    requires Parse(b).Parsed?
    ensures Tiles(Parse(b), |b|)
    ensures ValidLogin(Selected(b, Parse(b))) && b == EncodedLogin(Selected(b, Parse(b)))
  {
    hide U16, U32, FromU16, FromU32, IsIdentity, IsPassword;
    var p := Parse(b);
    assert b[p.password.start..|b|] == b[p.password.start..];
    HeaderIsEncoded(b);
    assert b == b[..20] + b[20..p.host.end] + b[p.host.end..p.username.end] + b[p.username.end..];
  }

  lemma HeaderIsEncoded(b: seq<u8>)
    requires |b| >= HEADER_LEN
    ensures var l := LayoutOf(b);
            b[..20] == b[..8] + U32(l.payload) + U16(l.host) + U16(l.username) + U16(l.password) + U16(l.port)
  {
    hide U16, U32, FromU16, FromU32;
    U32Canonical(b[8..12]);
    U16Canonical(b[12..14]);
    U16Canonical(b[14..16]);
    U16Canonical(b[16..18]);
    U16Canonical(b[18..20]);
    assert b[..20] == b[..8] + b[8..12] + b[12..14] + b[14..16] + b[16..18] + b[18..20];
  }

  /**
   Exactly the encodings of valid logins are accepted, the fields selected are those of the login, and the
   ranges that select them tile everything after the header.
   */
  lemma AcceptedExactlyEncodings(b: seq<u8>, l: Login)
    ensures (Tiles(Parse(b), |b|) && Selected(b, Parse(b)) == l) <==> (ValidLogin(l) && b == EncodedLogin(l))
  {
    hide Parse, EncodedLogin, ValidLogin;
    if Parse(b).Parsed? {
      ParsedLoginIsEncoded(b);
    }
    if ValidLogin(l) && b == EncodedLogin(l) {
      EncodedLoginParses(l);
    }
  }

  /** Whether the header announces lengths a login can have, which add up to the frame. */
  predicate Announces(b: seq<u8>)
    requires |b| >= HEADER_LEN
  {
    var host, username, password := FromU16(b[12..14]), FromU16(b[14..16]), FromU16(b[16..18]);
    FromU32(b[8..12]) == 8 + host + username + password == |b| - 12
  }

  /** The category names the first fault, in this order: size, magic, lengths and port, sum, and then the fields. */
  lemma RefusalsAreNamed(b: seq<u8>)
    ensures var p := Parse(b);
            && (p == Refused(ExtraError) <==> |b| > MAX_FRAME_LEN)
            && (p == Refused(HeaderError) <==> |b| < HEADER_LEN)
            && p != Refused(InputError)
            && (HEADER_LEN <= |b| <= MAX_FRAME_LEN ==>
                  && (p == Refused(MagicError) <==> b[..8] != MAGIC)
                  && (b[..8] == MAGIC ==>
                        var host, username, password := FromU16(b[12..14]), FromU16(b[14..16]), FromU16(b[16..18]);
                        var lengths := 1 <= host <= 255 && 1 <= username <= 255 && 1 <= password <= 1024;
                        && (p == Refused(PortError) <==> lengths && FromU16(b[18..20]) == 0)
                        && (p == Refused(PayloadError) <==> lengths && FromU16(b[18..20]) != 0 && !Announces(b))
                        && (lengths && FromU16(b[18..20]) != 0 && Announces(b) ==>
                              var usernameAt, passwordAt := 20 + host, 20 + host + username;
                              && (p == Refused(HostError) <==> !IsIdentity(b[20..usernameAt]))
                              && (p == Refused(UsernameError) <==>
                                    IsIdentity(b[20..usernameAt]) && !IsIdentity(b[usernameAt..passwordAt]))
                              && (p == Refused(PasswordError) <==>
                                    IsIdentity(b[20..usernameAt]) && IsIdentity(b[usernameAt..passwordAt])
                                    && !IsPassword(b[passwordAt..])))
                        && (!(1 <= host <= 255) ==> p == Refused(HostError))
                        && (1 <= host <= 255 && !(1 <= username <= 255) ==> p == Refused(UsernameError))
                        && (1 <= host <= 255 && 1 <= username <= 255 && !(1 <= password <= 1024) ==>
                              p == Refused(PasswordError))))
  {
    hide FromU16, FromU32, IsIdentity, IsPassword;
  }

  // ---------- Reading ----------

  /** How one read goes: up to so many bytes and one more, an interruption, or a failure. */
  datatype ReadStep = Deliver(most: nat) | Interrupt | Fault

  datatype ReadResult = Count(n: nat) | Interrupted | ReadError

  /** A source of bytes; when its schedule is used up every further read delivers all it can. */
  class Reader {
    const input: seq<u8>
    const schedule: seq<ReadStep>
    var at: nat
    var step: nat

    ghost predicate Valid()
      reads this
    {
      at <= |input| && step <= |schedule|
    }

    /** One of the reads so far has failed. */
    ghost predicate Failed()
      reads this
      requires Valid()
    {
      exists i :: 0 <= i < step && schedule[i] == Fault
    }

    constructor (input: seq<u8>, schedule: seq<ReadStep>)
      ensures Valid() && this.input == input && this.schedule == schedule && at == 0 && step == 0
    {
      this.input, this.schedule, at, step := input, schedule, 0, 0;
    }

    /** Fills the buffer from a position on; zero bytes mean the end of the input. */
    method Read(buffer: array<u8>, from: nat) returns (r: ReadResult)
      requires Valid() && from < buffer.Length
      modifies this, buffer
      ensures Valid() && old(at) <= at
      ensures step == if old(step) < |schedule| then old(step) + 1 else old(step)
      ensures r.ReadError? <==> old(step) < |schedule| && schedule[old(step)] == Fault
      ensures r.Interrupted? <==> old(step) < |schedule| && schedule[old(step)] == Interrupt
      ensures r.Count? ==>
                && r.n <= buffer.Length - from && at == old(at) + r.n
                && (r.n == 0 <==> old(at) == |input|)
                && buffer[..from + r.n] == old(buffer[..from]) + input[old(at)..at]
      ensures !r.Count? ==> at == old(at) && buffer[..from] == old(buffer[..from])
    {
      var most := buffer.Length;
      if step < |schedule| {
        var s := schedule[step];
        step := step + 1;
        match s {
          case Interrupt => return Interrupted;
          case Fault => return ReadError;
          case Deliver(n) => most := n + 1;
        }
      }
      var n := buffer.Length - from;
      n := if most < n then most else n;
      n := if |input| - at < n then |input| - at else n;
      forall i | 0 <= i < n {
        buffer[from + i] := input[at + i];
      }
      at := at + n;
      return Count(n);
    }
  }

  datatype Outcome = Frame(bytes: seq<u8>, parsed: Parsed) | Rejected(category: Category)

  /** What reading comes to, from the whole input alone. */
  function Accepted(input: seq<u8>): Outcome {
    var b := if |input| < READ_LIMIT then input else input[..READ_LIMIT];
    var p := Parse(b);
    if p.Parsed? then Frame(b, p) else Rejected(p.category)
  }

  class GuardedCredentialFrame {
    var bytes: seq<u8>
    var host: Range
    var username: Range
    var password: Range
    var port: u16
    var cleared: bool

    constructor ()
      ensures host == username == password == Range(0, 0) && port == 0 && !cleared
    {
      bytes := seq(READ_LIMIT, _ => 0);
      host, username, password, port, cleared := Range(0, 0), Range(0, 0), Range(0, 0), 0, false;
    }

    /**
     Reads until the end of the input or the limit and parses what was read. The error is the one of reading exactly
     when a read has failed. Else the outcome is a function of the input alone: neither the sizes of the pieces nor
     interruptions matter.
     */
    method ReadWith(reader: Reader) returns (r: Option<Category>)
      requires reader.Valid() && reader.at == 0 && reader.step == 0
      modifies this, reader
      ensures reader.Valid() && (r == Some(InputError) <==> reader.Failed())
      ensures !reader.Failed() ==>
                match Accepted(reader.input)
                case Frame(b, p) =>
                  r == None && bytes == b && host == p.host && username == p.username && password == p.password
                  && port == p.port && cleared == old(cleared)
                case Rejected(category) => r == Some(category)
    {
      var buffer := new u8[READ_LIMIT](_ => 0);
      var used := 0;
      var ended := false;
      while used < READ_LIMIT && !ended
        invariant reader.Valid() && fresh(buffer)
        invariant used == reader.at <= READ_LIMIT && buffer[..used] == reader.input[..used]
        invariant ended ==> used == |reader.input|
        invariant cleared == old(cleared) && !reader.Failed()
        decreases READ_LIMIT - used, |reader.schedule| - reader.step, !ended
      {
        var result := reader.Read(buffer, used);
        match result {
          case Count(n) =>
            if n == 0 {
              ended := true;
            } else {
              used := used + n;
            }
          case Interrupted =>
          case ReadError => return Some(InputError);
        }
      }
      bytes := buffer[..used];
      assert reader.input[..|reader.input|] == reader.input;
      RefusalsAreNamed(bytes);
      r := ParseInPlace();
    }

    /** Sets the ranges and the port, or says what is wrong; the bytes stay as they are. */
    method ParseInPlace() returns (r: Option<Category>)
      modifies this
      ensures bytes == old(bytes) && cleared == old(cleared)
      ensures match Parse(bytes)
              case Parsed(h, u, p, n) => r == None && host == h && username == u && password == p && port == n
              case Refused(category) => r == Some(category)
    {
      hide FromU16, FromU32, IsIdentity, IsPassword;
      if |bytes| >= READ_LIMIT {
        return Some(ExtraError);
      }
      if |bytes| < HEADER_LEN {
        return Some(HeaderError);
      }
      if bytes[..8] != MAGIC {
        return Some(MagicError);
      }
      var payloadLength := FromU32(bytes[8..12]);
      var hostLength := FromU16(bytes[12..14]);
      var usernameLength := FromU16(bytes[14..16]);
      var passwordLength := FromU16(bytes[16..18]);
      var portNumber := FromU16(bytes[18..20]);
      if !(1 <= hostLength <= 255) {
        return Some(HostError);
      }
      if !(1 <= usernameLength <= 255) {
        return Some(UsernameError);
      }
      if !(1 <= passwordLength <= 1024) {
        return Some(PasswordError);
      }
      if portNumber == 0 {
        return Some(PortError);
      }
      var expectedPayload := 8 + hostLength + usernameLength + passwordLength;
      if !(11 <= payloadLength <= 1542) || payloadLength != expectedPayload {
        return Some(PayloadError);
      }
      var hostEnd := HEADER_LEN + hostLength;
      var usernameEnd := hostEnd + usernameLength;
      var passwordEnd := usernameEnd + passwordLength;
      if passwordEnd != |bytes| {
        return Some(PayloadError);
      }
      assert bytes[usernameEnd..passwordEnd] == bytes[usernameEnd..];
      var valid := ValidateIdentity(bytes[HEADER_LEN..hostEnd]);
      if !valid {
        return Some(HostError);
      }
      valid := ValidateIdentity(bytes[hostEnd..usernameEnd]);
      if !valid {
        return Some(UsernameError);
      }
      if !IsPassword(bytes[usernameEnd..passwordEnd]) {
        return Some(PasswordError);
      }
      host := Range(HEADER_LEN, hostEnd);
      username := Range(hostEnd, usernameEnd);
      password := Range(usernameEnd, passwordEnd);
      port := portNumber;
      return None;
    }

    /** The fields of a frame that was accepted and not cleared since. */
    method Slices() returns (l: Login)
      requires !cleared && Parse(bytes) == Parsed(host, username, password, port)
      ensures ValidLogin(l) && bytes == EncodedLogin(l)
    {
      ParsedLoginIsEncoded(bytes);
      hide Parse;
      return Login(bytes[host.start..host.end], bytes[username.start..username.end],
                   bytes[password.start..password.end], port);
    }
  }

  method ValidateIdentity(value: seq<u8>) returns (valid: bool)
    ensures valid == IsIdentity(value)
  {
    hide DecodedFirst;
    var text := Decoded(value);
    if text.None? {
      return false;
    }
    for i := 0 to |value|
      invariant forall j :: 0 <= j < i ==> value[j] >= 0x20 && value[j] != 0x7f
    {
      if value[i] < 0x20 || value[i] == 0x7f {
        return false;
      }
    }
    return IsTrimmed(text.value);
  }
}
