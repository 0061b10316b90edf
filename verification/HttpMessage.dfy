/** What the HTTP parser makes of the bytes in its buffer, on values, and the messages it is meant for. */
module HttpMessages {
  import opened Basics
  import opened RequestLines
  import opened ByteBuffers

  const CONTENT_LENGTH := "Content-Length"
  const INT_MAX := 0x7fff_ffff
  const INT_MIN := -0x8000_0000
  const SIZE_RANGE := 0x1_0000_0000_0000_0000

  datatype Request = Request(
    verb: Method, path: string, query: string, version: Version, headers: map<string, string>, body: string)

  /** How a call of parseRequest on these bytes ends: with a whole request and the bytes after it; waiting
      for the rest of the body; refusing the request line; throwing on the content length, with the bytes
      not yet taken; or, when the bytes stop within a head that has nothing wrong with it so far, by its
      scanner reading or its buffer retrieving past the readable bytes. */
  datatype Outcome =
    | Complete(request: Request, rest: string)
    | BodyMissing(request: Request, rest: string)
    | BadLine
    | BadLength(request: Request, rest: string)
    | HeadIncomplete

  // ----- characters -----

  /** isspace in the C locale. */
  predicate IsSpace(c: char)
    ensures IsSpace(c) <==> c as int in {9, 10, 11, 12, 13, 32}
  {
    c == ' ' || 9 <= c as int <= 13
  }

  predicate IsDigit(c: char) {
    '0' <= c <= '9'
  }

  ghost predicate AllSpace(s: string) {
    forall i :: 0 <= i < |s| ==> IsSpace(s[i])
  }

  function TrimLeft(s: string): (t: string)
    ensures |t| <= |s|
  {
    if s != "" && IsSpace(s[0]) then TrimLeft(s[1..]) else s
  }

  function TrimRight(s: string): string {
    if s != "" && IsSpace(s[|s| - 1]) then TrimRight(s[..|s| - 1]) else s
  }

  ghost predicate Trimmed(s: string) {
    s != "" ==> !IsSpace(s[0]) && !IsSpace(s[|s| - 1])
  }

  /** The first place of `c`, or the end. */
  function IndexOf(s: string, c: char): (k: nat)
    ensures k <= |s|
    ensures forall i :: 0 <= i < k ==> s[i] != c
    ensures k < |s| ==> s[k] == c
  {
    if s == "" || s[0] == c then 0 else 1 + IndexOf(s[1..], c)
  }

  function LeadingDigits(s: string): (k: nat)
    ensures k <= |s| && forall i :: 0 <= i < k ==> IsDigit(s[i])
  {
    if s == "" || !IsDigit(s[0]) then 0 else 1 + LeadingDigits(s[1..])
  }

  function Decimal(s: string): nat
    requires forall i :: 0 <= i < |s| ==> IsDigit(s[i])
  {
    if s == "" then 0
    else
      assert IsDigit(s[|s| - 1]);
      10 * Decimal(s[..|s| - 1]) + (s[|s| - 1] as int - '0' as int)
  }

  /** std::stoi; None where it throws. */
  function Stoi(s: string): (r: Option<int>)
    ensures r.Some? ==> INT_MIN <= r.value <= INT_MAX
  {
    var t := TrimLeft(s);
    var negative := t != "" && t[0] == '-';
    var u := if t != "" && t[0] in {'-', '+'} then t[1..] else t;
    var k := LeadingDigits(u);
    if k == 0 then None
    else
      var d: int := Decimal(u[..k]);
      var n := if negative then -d else d;
      if INT_MIN <= n <= INT_MAX then Some(n) else None
  }

  /** int to size_t. */
  function AsSize(n: int): (size: int)
    ensures INT_MIN <= n ==> 0 <= size
  {
    if n < 0 then n + SIZE_RANGE else n
  }

  // ----- the parse -----

  /** getHeader: an absent header reads as an empty one. */
  function Header(headers: map<string, string>, field: string): string {
    if field in headers then headers[field] else ""
  }

  function ParseBody(s: string, r: Request, contentLength: int): Outcome {
    if 0 <= contentLength <= |s| then Complete(r.(body := s[..contentLength]), s[contentLength..])
    else BodyMissing(r, s)
  }

  /** The content length is there and does not convert. */
  predicate LengthThrows(headers: map<string, string>) {
    Header(headers, CONTENT_LENGTH) != "" && Stoi(Header(headers, CONTENT_LENGTH)) == None
  }

  /** What follows the line without a colon. */
  function AfterHead(s: string, r: Request): Outcome
    requires !LengthThrows(r.headers)
  {
    if Header(r.headers, CONTENT_LENGTH) == "" then Complete(r, s)
    else ParseBody(s, r, AsSize(Stoi(Header(r.headers, CONTENT_LENGTH)).value))
  }

  /** The line, or what there is of it, is taken for the end of the head if it has no colon, and then the
      content length is converted before it is noticed that a line break is missing. */
  function ParseHeaders(s: string, r: Request): Outcome
    decreases |s|
  {
    var crlf := FirstCRLF(s);
    var colon := IndexOf(s[..crlf], ':');
    if colon == crlf && s != "" && LengthThrows(r.headers) then BadLength(r, s)
    else if crlf == |s| then HeadIncomplete
    else
      FirstCRLFIsFirst(s);
      var rest := s[crlf + 2..];
      if colon < crlf then
        var value := TrimRight(TrimLeft(s[colon + 1..crlf]));
        ParseHeaders(rest, r.(headers := r.headers[s[..colon] := value]))
      else AfterHead(rest, r)
  }

  function FromLine(l: Line): Request {
    Request(l.verb, l.path, if l.query.Some? then l.query.value else "", l.version, map[], "")
  }

  function Parse(s: string): Outcome {
    var crlf := FirstCRLF(s);
    if crlf == |s| then
      if Refused(s) then BadLine else HeadIncomplete
    else
      FirstCRLFIsFirst(s);
      match ScanLine(s[..crlf + 2])
      case None => BadLine
      case Some(l) => ParseHeaders(s[crlf + 2..], FromLine(l))
  }

  /** The log line at the start of parseRequestLine copies everything up to the end of the line, if that
      level is logged: two characters too many when there is no line break. */
  predicate LogReadsPast(s: string, logsInfo: bool) {
    logsInfo && FirstCRLF(s) + 2 > |s|
  }

  /** The call as a whole reads or retrieves past the readable bytes. */
  predicate ReadsPast(s: string, logsInfo: bool) {
    LogReadsPast(s, logsInfo) || Parse(s).HeadIncomplete?
  }

  // ----- messages as they can be written -----

  /** A header line, with what may stand around the value. */
  datatype Field = Field(name: string, lead: string, value: string, trail: string)

  /** The line that ends the head is usually empty, but any line without a colon does. */
  datatype Message = Message(line: Line, fields: seq<Field>, end: string, body: string)

  function FieldLine(f: Field): string {
    f.name + ":" + f.lead + f.value + f.trail
  }

  function FieldsText(fs: seq<Field>): string {
    if fs == [] then "" else FieldLine(fs[0]) + "\r\n" + FieldsText(fs[1..])
  }

  function HeadText(m: Message): string {
    Text(m.line) + FieldsText(m.fields) + m.end + "\r\n"
  }

  function Print(m: Message): string {
    HeadText(m) + m.body
  }

  /** The headers the fields leave, where a later one replaces an earlier one of the same name. */
  function HeadersOf(headers: map<string, string>, fs: seq<Field>): map<string, string>
    decreases |fs|
  {
    if fs == [] then headers else HeadersOf(headers[fs[0].name := fs[0].value], fs[1..])
  }

  function RequestOf(m: Message): Request {
    FromLine(m.line).(headers := HeadersOf(map[], m.fields), body := m.body)
  }

  ghost predicate NoCRLF(s: string) {
    forall i :: 0 <= i < |s| ==> !CRLFAt(s, i)
  }

  ghost predicate NoColon(s: string) {
    forall i :: 0 <= i < |s| ==> s[i] != ':'
  }

  ghost predicate GoodField(f: Field) {
    NoColon(f.name) && AllSpace(f.lead) && AllSpace(f.trail) && Trimmed(f.value) && NoCRLF(FieldLine(f))
  }

  /** The body is as long as the content length says, and empty if nothing says so. */
  ghost predicate GoodBody(headers: map<string, string>, body: string) {
    var length := Header(headers, CONTENT_LENGTH);
    if length == "" then body == ""
    else Stoi(length).Some? && |body| == AsSize(Stoi(length).value)
  }

  ghost predicate GoodFields(fs: seq<Field>) {
    forall i :: 0 <= i < |fs| ==> GoodField(fs[i])
  }

  ghost predicate GoodEnd(end: string) {
    NoColon(end) && NoCRLF(end)
  }

  ghost predicate GoodMessage(m: Message) {
    && WellFormed(m.line) && |Text(m.line)| <= MAX_REQUEST_LINE + 1
    && GoodFields(m.fields) && GoodEnd(m.end)
    && GoodBody(HeadersOf(map[], m.fields), m.body)
  }
}
