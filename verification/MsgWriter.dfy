/**
 Writing messages: the text of each start line and header, the reserved
 Content-Length blanks, and the writer object that composes and releases.
 */
module MsgWriter {
  import opened Options
  import opened Slices
  import opened MsgText
  import opened MsgTables
  import opened MsgLayout

  /** STEP 1 of writing: one of the three start lines. */
  datatype Opening =
    | OpenRequest(uri: string, verb: Method)
    | OpenReply(status: int, reason: string)
    | OpenReport(uri: string, status: int, reason: string)
  {
    function MsgKind(): Kind {
      match this
      case OpenRequest(_, _) => Request
      case OpenReply(_, _) => Reply
      case OpenReport(_, _, _) => Report
    }

    /** The checks made before anything is written. */
    predicate Accepted() {
      match this
      case OpenRequest(uri, verb) => verb.Valid() && NoWhitespace(uri)
      case OpenReply(_, reason) => NoEol(reason)
      case OpenReport(uri, _, reason) => NoWhitespace(uri) && NoEol(reason)
    }

    /** The start line without its newline. */
    function Text(p: Protocol): string {
      match this
      case OpenRequest(uri, verb) => verb.ToString() + " " + uri + " " + p.ToString()
      case OpenReply(status, reason) => p.ToString() + " " + StatusText(status) + " " + reason
      case OpenReport(uri, status, reason) => uri + " " + p.ToString() + " " + StatusText(status) + " " + reason
    }
  }

  predicate NoWhitespace(s: string) {
    forall i :: 0 <= i < |s| ==> !IsEol(s[i]) && s[i] != ' ' && s[i] != '\t'
  }

  /** STEP 2: a plain header, or blanks reserved for the length of the body. */
  datatype Field = Plain(name: string, value: string) | Length(maxLength: nat) {
    predicate Accepted() {
      match this
      case Plain(name, value) => NoEol(name) && ':' !in name && NoEol(value)
      case Length(_) => true
    }

    function Line(): string {
      match this
      case Plain(name, value) => name + ":" + value
      case Length(maxLength) => "Content-Length:" + Blanks(NumDigits(maxLength))
    }
  }

  /** The number of decimal digits. */
  function NumDigits(n: nat): (d: nat)
    ensures d >= 1
  {
    if n < 10 then 1 else 1 + NumDigits(n / 10)
  }

  function Blanks(n: nat): (s: string)
    ensures |s| == n && forall i :: 0 <= i < n ==> s[i] == ' '
  {
    if n == 0 then "" else Blanks(n - 1) + " "
  }

  function DecimalText(n: nat): (s: string)
    ensures |s| == NumDigits(n)
    ensures forall i :: 0 <= i < |s| ==> IsDigit(s[i])
  {
    if n < 10 then [Digit(n)] else DecimalText(n / 10) + [Digit(n)]
  }

  /** Every header line followed by its newline. */
  function HeaderText(fs: seq<Field>, nl: string): string {
    if fs == [] then "" else HeaderText(fs[..|fs| - 1], nl) + fs[|fs| - 1].Line() + nl
  }

  /** Everything before the empty line. */
  function HeadText(p: Protocol, o: Opening, fs: seq<Field>): string {
    o.Text(p) + p.Newline() + HeaderText(fs, p.Newline())
  }

  lemma OpeningOnly(p: Protocol, o: Opening)
    ensures "" + o.Text(p) + p.Newline() == HeadText(p, o, [])
  {
  }

  /** The index of the first length field, or the number of fields. */
  function LengthIndex(fs: seq<Field>): (i: nat)
    ensures i <= |fs| && (i < |fs| ==> fs[i].Length?)
    ensures forall j :: 0 <= j < i ==> !fs[j].Length?
  {
    if fs == [] then 0
    else
      var i := LengthIndex(fs[..|fs| - 1]);
      if i < |fs| - 1 || fs[|fs| - 1].Length? then i else |fs|
  }

  /** At most one length field can be reserved. */
  predicate OneLength(fs: seq<Field>) {
    forall i, j :: 0 <= i < j < |fs| ==> !(fs[i].Length? && fs[j].Length?)
  }

  /** Where the reserved blanks start. */
  function LengthOffset(p: Protocol, o: Opening, fs: seq<Field>): nat
    requires LengthIndex(fs) < |fs|
  {
    |HeadText(p, o, fs[..LengthIndex(fs)])| + |"Content-Length:"|
  }

  function LengthSize(fs: seq<Field>): nat {
    if LengthIndex(fs) < |fs| then NumDigits(fs[LengthIndex(fs)].maxLength) else 0
  }

  // ---------------------------------------------------------------------------
  // The writer's small loops
  // ---------------------------------------------------------------------------

  method CountDigits(value: nat) returns (digits: nat)
    ensures digits == NumDigits(value)
  {
    digits := 1;
    var v: nat := value / 10;
    while v != 0
      invariant NumDigits(value) == digits + if v == 0 then 0 else NumDigits(v)
    {
      digits := digits + 1;
      v := v / 10;
    }
  }

  method ContainsNewline(s: string) returns (b: bool)
    ensures b == !NoEol(s)
  {
    for i := 0 to |s|
      invariant NoEolIn(s, 0, i)
    {
      if s[i] == '\r' || s[i] == '\n' {
        return true;
      }
    }
    return false;
  }

  method ContainsWhitespace(s: string) returns (b: bool)
    ensures b == !NoWhitespace(s)
  {
    for i := 0 to |s|
      invariant forall j :: 0 <= j < i ==> !IsEol(s[j]) && s[j] != ' ' && s[j] != '\t'
    {
      if s[i] == '\r' || s[i] == '\n' || s[i] == ' ' || s[i] == '\t' {
        return true;
      }
    }
    return false;
  }

  /** The checks of `startRequest`, `startReply` and `startReport`. */
  method CheckOpening(o: Opening) returns (ok: bool)
    ensures ok == o.Accepted()
  {
    match o {
      case OpenRequest(uri, verb) =>
        var bad := ContainsWhitespace(uri);
        ok := verb.Valid() && !bad;
      case OpenReply(_, reason) =>
        var bad := ContainsNewline(reason);
        ok := !bad;
      case OpenReport(uri, _, reason) =>
        var badUri := ContainsWhitespace(uri);
        var bad := ContainsNewline(reason);
        ok := !badUri && !bad;
    }
  }

  /** The digit loop of `release`: fill `digits` places from `off`, last digit first. */
  method WriteDigits(text: string, off: nat, digits: nat, size: nat) returns (r: string)
    requires digits == NumDigits(size) && off + digits <= |text|
    ensures r == Overwrite(text, off, DecimalText(size))
  {
    r := text;
    var pos, left := off + digits, size;
    ghost var done := "";
    while true
      invariant off < pos && pos + |done| == off + digits
      invariant pos - off == NumDigits(left)
      invariant DecimalText(size) == DecimalText(left) + done
      invariant r == Overwrite(text, pos, done)
      decreases left
    {
      pos := pos - 1;
      r := r[pos := Digit(left)];
      done := [Digit(left)] + done;
      left := left / 10;
      if left == 0 {
        break;
      }
    }
  }

  // ---------------------------------------------------------------------------
  // The writer object
  // ---------------------------------------------------------------------------

  datatype Released = Released(msg: Option<string>) | NotReleased(error: MsgError)

  class Writer {
    const protocol: Protocol
    var msg: Option<string>      // the body of the message being written
    var pBody: int               // zero until the headers are closed
    var lengthOffset: int
    var lengthSize: int

    /** The reserved blanks, if any, and the body offset are inside the message. */
    ghost predicate Valid()
      reads this
    {
      && 0 <= lengthOffset && 0 <= lengthSize && 0 <= pBody
      && (msg.Some? ==> lengthOffset + lengthSize <= |msg.value| && pBody <= |msg.value|)
      && (msg.None? ==> lengthSize == 0)
    }

    /** The opening and these fields have been written, and nothing else. */
    ghost predicate Composing(o: Opening, fs: seq<Field>)
      reads this
    {
      && msg == Some(HeadText(protocol, o, fs))
      && pBody == 0
      && OneLength(fs)
      && lengthSize == LengthSize(fs)
      && (lengthSize > 0 ==> lengthOffset == U16(LengthOffset(protocol, o, fs)))
    }

    constructor (p: Protocol)
      ensures protocol == p && msg == None && pBody == 0 && lengthSize == 0 && Valid()
    {
      protocol := p;
      msg := None;
      pBody := 0;
      lengthOffset, lengthSize := 0, 0;
    }

    /** `_startMsg`: begin an empty message, unless one is being written. */
    method StartMsg() returns (e: Option<MsgError>)
      requires Valid()
      modifies this
      ensures Valid()
      ensures e == if old(msg).Some? then Some(AlreadyWritten) else None
      ensures e.Some? ==> unchanged(this)
      ensures e.None? ==> msg == Some("") && pBody == 0 && lengthOffset == 0 && lengthSize == 0
    {
      if msg.Some? {
        return Some(AlreadyWritten);
      }
      msg := Some("");
      pBody, lengthOffset, lengthSize := 0, 0, 0;
      return None;
    }

    method Put(s: string)
      requires Valid() && msg.Some?
      modifies this`msg
      ensures Valid() && msg == Some(old(msg).value + s)
    {
      msg := Some(msg.value + s);
    }

    /** `startRequest`, `startReply` and `startReport` differ in their checks and their line. */
    method Start(o: Opening) returns (e: Option<MsgError>)
      requires Valid()
      modifies this
      ensures Valid()
      ensures e == if old(msg).Some? then Some(AlreadyWritten)
                   else if o.Accepted() then None else Some(StartLineMalformed)
      ensures old(msg).Some? ==> unchanged(this)
      ensures old(msg).None? && e.Some? ==> msg == Some("")
      ensures e.None? ==> Composing(o, [])
    {
      e := StartMsg();
      if e.Some? {
        return;
      }
      var ok := CheckOpening(o);
      if !ok {
        return Some(StartLineMalformed);
      }
      Put(o.Text(protocol));
      Put(protocol.Newline());
      OpeningOnly(protocol, o);
    }

    method WriteHeader(name: string, value: string) returns (e: Option<MsgError>)
      requires Valid()
      modifies this
      ensures Valid()
      ensures e == if old(msg).None? || old(pBody) != 0 then Some(AlreadyWritten)
                   else if Plain(name, value).Accepted() then None else Some(HeaderMalformed)
      ensures e.Some? ==> unchanged(this)
      ensures e.None? ==> msg == Some(old(msg).value + Plain(name, value).Line() + protocol.Newline())
      ensures e.None? ==> pBody == 0 && lengthOffset == old(lengthOffset) && lengthSize == old(lengthSize)
    {
      if msg.None? || pBody != 0 {
        return Some(AlreadyWritten);
      }
      for i := 0 to |name|
        invariant NoEolIn(name, 0, i) && ':' !in name[..i]
      {
        if name[i] == '\r' || name[i] == '\n' || name[i] == ':' {
          return Some(HeaderMalformed);
        }
        assert name[..i + 1] == name[..i] + [name[i]];
      }
      assert name[..|name|] == name;
      var bad := ContainsNewline(value);
      if bad {
        return Some(HeaderMalformed);
      }
      Put(name + ":" + value);
      Put(protocol.Newline());
      return None;
    }

    /** `writeHeader_Length`: reserve blanks for the final size of the body. */
    method WriteHeaderLength(maxLength: nat) returns (e: Option<MsgError>)
      requires Valid() && msg.Some?
      modifies this
      ensures Valid()
      ensures e == if old(lengthSize) != 0 then Some(NoSpaceForLength) else None
      ensures e.Some? ==> unchanged(this)
      ensures e.None? ==> msg == Some(old(msg).value + Length(maxLength).Line() + protocol.Newline())
      ensures e.None? ==> lengthOffset == U16(|old(msg).value| + |"Content-Length:"|)
      ensures e.None? ==> lengthSize == NumDigits(maxLength) && pBody == old(pBody)
    {
      if lengthSize != 0 {
        return Some(NoSpaceForLength);
      }
      var digits := CountDigits(maxLength);
      lengthOffset, lengthSize := 0, 0;
      Put("Content-Length:");
      var off := |msg.value|;
      Put(Blanks(digits));
      Put(protocol.Newline());
      lengthOffset := U16(off);
      lengthSize := digits;
      assert msg.value == old(msg).value + Length(maxLength).Line() + protocol.Newline();
      return None;
    }

    /** `_autoCloseHeaders`: write the empty line, then parse what was written. */
    method CloseHeaders() returns (e: Option<MsgError>)
      requires Valid()
      modifies this
      ensures Valid()
      ensures old(pBody) != 0 ==> e.None? && unchanged(this)
      ensures old(pBody) == 0 && old(msg).None? ==> e == Some(AlreadyWritten) && unchanged(this)
      ensures old(pBody) == 0 && old(msg).Some? ==>
        && msg == Some(old(msg).value + protocol.Newline())
        && lengthOffset == old(lengthOffset) && lengthSize == old(lengthSize)
        && match Parse(msg.value, Unknown)
           case Parsed(l) => e.None? && pBody == l.pBody
           case Failed(error, bodyPos) => e == Some(error) && pBody == bodyPos
    {
      if pBody != 0 {
        return None;
      }
      if msg.None? {
        return Some(AlreadyWritten);
      }
      Put(protocol.Newline());
      var r := ParseMsg(msg.value, Unknown);
      match r {
        case Parsed(l) =>
          pBody := l.pBody;
          e := None;
        case Failed(error, bodyPos) =>
          pBody := bodyPos;
          e := Some(error);
      }
    }

    /** `writeBody`, followed by writing `data` to the stream it returns. */
    method WriteBody(data: string) returns (e: Option<MsgError>)
      requires Valid() && (pBody != 0 ==> msg.Some?)
      modifies this
      ensures Valid()
      ensures old(pBody) != 0 ==> e.None? && msg == Some(old(msg).value + data) && pBody == old(pBody)
      ensures old(pBody) == 0 && old(msg).None? ==> e == Some(AlreadyWritten)
      ensures old(pBody) == 0 && old(msg).Some? ==>
        match Parse(old(msg).value + protocol.Newline(), Unknown)
        case Parsed(l) => e.None? && pBody == l.pBody && msg == Some(old(msg).value + protocol.Newline() + data)
        case Failed(error, _) => e == Some(error)
      ensures e.None? ==> lengthOffset == old(lengthOffset) && lengthSize == old(lengthSize)
    {
      e := CloseHeaders();
      if e.None? {
        Put(data);
      }
    }

    /** The second half of `release`: fill in the reserved length and let the message go. */
    method LetGo() returns (r: Released)
      requires Valid() && msg.Some?
      modifies this
      ensures Valid()
      ensures r == Finish(old(msg).value, old(pBody), old(lengthOffset), old(lengthSize))
      ensures r.Released? ==> msg == None && lengthSize == 0
      ensures r.NotReleased? ==> unchanged(this)
      ensures pBody == old(pBody)
    {
      var text := msg.value;
      if lengthSize != 0 {
        var size := |text| - pBody;
        var digits := CountDigits(size);
        if digits > lengthSize {
          return NotReleased(NoSpaceForLength);
        }
        text := WriteDigits(text, lengthOffset, digits, size);
      }
      r := Released(Some(text));
      lengthOffset, lengthSize := 0, 0;
      msg := None;
    }

    /** `release`: close the headers, then let the message go. */
    method Release() returns (r: Released)
      requires Valid()
      modifies this
      ensures Valid()
      ensures r.Released? ==> msg == None && lengthSize == 0
      ensures old(pBody) != 0 && old(msg).None? ==> r == Released(None)
      ensures old(pBody) != 0 && old(msg).Some? ==>
        r == Finish(old(msg).value, old(pBody), old(lengthOffset), old(lengthSize))
      ensures old(pBody) == 0 && old(msg).None? ==> r == NotReleased(AlreadyWritten)
      ensures old(pBody) == 0 && old(msg).Some? ==>
        var closed := old(msg).value + protocol.Newline();
        match Parse(closed, Unknown)
        case Parsed(l) => r == Finish(closed, l.pBody, old(lengthOffset), old(lengthSize))
        case Failed(error, _) => r == NotReleased(error)
    {
      var e := CloseHeaders();
      if e.Some? {
        return NotReleased(e.value);
      }
      if msg.None? {
        return Released(None);
      }
      r := LetGo();
    }
  }

  /** What `release` makes of a closed message. */
  function Finish(text: string, pBody: int, off: int, size: int): Released
    requires pBody <= |text| && 0 <= off && 0 <= size && off + size <= |text|
  {
    if size == 0 then Released(Some(text))
    else if NumDigits(|text| - pBody) > size then NotReleased(NoSpaceForLength)
    else Released(Some(Overwrite(text, off, DecimalText(|text| - pBody))))
  }
}
