/**
 The method, protocol and status vocabularies of a start line, with their
 text forms.
 */
module MsgTables {

  datatype Method =
    | NoMethod | UnknownMethod
    | Get | Head | Post | Put | Delete | Patch | Options | Connect | Trace
  {
    predicate Valid() {
      !NoMethod? && !UnknownMethod?
    }

    function ToString(): string {
      match this
      case Get => "GET"
      case Head => "HEAD"
      case Post => "POST"
      case Put => "PUT"
      case Delete => "DELETE"
      case Patch => "PATCH"
      case Options => "OPTIONS"
      case Connect => "CONNECT"
      case Trace => "TRACE"
      case NoMethod => "NoMethod"
      case UnknownMethod => "UnknownMethod"
    }
  }

  /** `Method::Parse`: dispatches on the first two letters, then compares whole words. */
  function ParseMethod(v: string): Method {
    if |v| == 0 then NoMethod
    else if |v| == 1 then UnknownMethod
    else
      match (v[0], v[1])
      case ('G', 'E') => if v == "GET" then Get else UnknownMethod
      case ('H', 'E') => if v == "HEAD" then Head else UnknownMethod
      case ('P', 'O') => if v == "POST" then Post else UnknownMethod
      case ('P', 'U') => if v == "PUT" then Put else UnknownMethod
      case ('D', 'E') => if v == "DELETE" then Delete else UnknownMethod
      case ('P', 'A') => if v == "PATCH" then Patch else UnknownMethod
      case ('O', 'P') => if v == "OPTIONS" then Options else UnknownMethod
      case ('T', 'R') => if v == "TRACE" then Trace else UnknownMethod
      case ('C', 'O') => if v == "CONNECT" then Connect else UnknownMethod
      case _ => UnknownMethod
  }

  /** Parsing recovers exactly the valid methods from their text, and nothing else parses. */
  lemma ParseMethodInverts(v: string, m: Method)
    requires m.Valid()
    ensures ParseMethod(v) == m <==> v == m.ToString()
  {
  }

  datatype Protocol = NoProtocol | UnknownProtocol | Telling | Http10 | Http11 {
    predicate Valid() {
      !NoProtocol? && !UnknownProtocol?
    }

    predicate IsHttp() {
      Http10? || Http11?
    }

    function ToString(): string {
      match this
      case Telling => "Tell/0"
      case Http10 => "HTTP/1.0"
      case Http11 => "HTTP/1.1"
      case NoProtocol => "NoProtocol"
      case UnknownProtocol => "UnknownProtocol"
    }

    /** `preferred_newline`. */
    function Newline(): string {
      if IsHttp() then "\r\n" else "\n"
    }
  }

  /** `MsgProtocol::Parse`. */
  function ParseProtocol(v: string): Protocol {
    if |v| == 0 then NoProtocol
    else if v[0] == 'T' then
      if v == "Tell/0" then Telling else UnknownProtocol
    else if v[0] == 'H' then
      if v == "HTTP/1.0" then Http10
      else if v == "HTTP/1.1" then Http11
      else UnknownProtocol
    else UnknownProtocol
  }

  predicate IsProtocolName(v: string) {
    ParseProtocol(v).Valid()
  }

  lemma ParseProtocolInverts(v: string, p: Protocol)
    requires p.Valid()
    ensures ParseProtocol(v) == p <==> v == p.ToString()
  {
  }

  function Digit(n: int): (c: char)
    ensures IsDigit(c)
    ensures DigitValue(c) == n % 10
  {
    (('0' as int) + n % 10) as char
  }

  predicate IsDigit(c: char) {
    '0' <= c <= '9'
  }

  function DigitValue(c: char): (d: int)
    requires IsDigit(c)
    ensures 0 <= d <= 9
  {
    (c as int) - ('0' as int)
  }

  /** `Status::toString`: three digits, or a placeholder outside 1..999. */
  function StatusText(code: int): (s: string)
    ensures |s| == 3
  {
    if code <= 0 || code > 999 then "N/A"
    else [Digit(code / 100), Digit(code / 10), Digit(code)]
  }

  /** `Status::Parse`: zero stands for an invalid status. */
  function ParseStatus(s: string): (code: int)
    ensures 0 <= code <= 999
  {
    if |s| != 3 || !IsDigit(s[0]) || !IsDigit(s[1]) || !IsDigit(s[2]) then 0
    else DigitValue(s[2]) + 10 * DigitValue(s[1]) + 100 * DigitValue(s[0])
  }

  /** A status code survives printing and parsing exactly when it is in 0..999. */
  lemma StatusRoundTrip(code: int)
    ensures ParseStatus(StatusText(code)) == code <==> 0 <= code <= 999
  {
    if 0 < code <= 999 {
      assert code == code / 100 * 100 + code / 10 % 10 * 10 + code % 10;
      assert code / 100 % 10 == code / 100;
    }
  }
}
