/** The request object and the two-level parser that fills it. */
module HttpContexts {
  import opened Basics
  import opened RequestLines
  import opened ByteBuffers
  import opened HttpMessages

  /** Once the scanner has accepted or refused within the limit, the rest of the text does not matter. */
  lemma ScanEnds(text: string, n: nat)
    requires n <= |text| && n <= MAX_REQUEST_LINE + 1
    requires Scan(START, text[..n]).state in {Done, Failed}
    ensures var s := Scan(START, text[..n]); ScanLine(text) == if s.state == Done then Some(s.line) else None
  {
    hide Scan;
    var seen := if |text| > MAX_REQUEST_LINE + 1 then text[..MAX_REQUEST_LINE + 1] else text;
    var s := Scan(START, text[..n]);
    assert seen == text[..n] + seen[n..];
    ScanAppend(START, text[..n], seen[n..]);
    if s.state == Done {
      DoneStays(s, seen[n..]);
    } else {
      FailedStays(s, seen[n..]);
    }
  }

  lemma ScanStep(text: string, p: nat)
    requires p < |text|
    ensures Scan(START, text[..p + 1]) == Next(Scan(START, text[..p]), text[p])
  {
    assert text[..p + 1][..p] == text[..p];
  }

  lemma ScanUnfinished(text: string, n: nat)
    requires n == MAX_REQUEST_LINE + 1 < |text| || n == |text| <= MAX_REQUEST_LINE + 1
    requires Scan(START, text[..n]).state != Done
    ensures ScanLine(text) == None
  {
    assert text[..|text|] == text;
  }

  /** How a token grows, begins and is empty. */
  lemma TokenStep(text: string, start: nat, p: nat)
    requires start <= p < |text|
    ensures text[start..p + 1] == text[start..p] + [text[p]]
    ensures text[p..p + 1] == [text[p]] && text[p + 1..p + 1] == ""
    ensures p > start <==> text[start..p] != ""
  {
  }

  lemma ScanStart(text: string)
    ensures Scan(START, text[..0]) == START
  {
  }

  /** A refused text is too long, or makes the scanner fail before its end. */
  lemma RefusedBy(text: string)
    ensures Refused(text) <==> |text| > MAX_REQUEST_LINE || Scan(START, text[..|text|]).state == Failed
  {
    assert text[..|text|] == text;
  }

  /** No text without a line break is accepted. */
  lemma NoLineWithoutCRLF(s: string)
    requires FirstCRLF(s) == |s|
    ensures ScanLine(s) == None
  {
    hide FirstCRLF, ScanLine, WellFormed;
    if ScanLine(s).Some? {
      var l := ScanLine(s).value;
      AcceptsIff(s, l);
      LineHasCRLF(s, l);
      FirstCRLFIsFirst(s);
    }
  }

  lemma LineHasCRLF(s: string, l: Line)
    requires Text(l) <= s
    ensures exists i :: CRLFAt(s, i)
  {
    assert CRLFAt(s, |Text(l)| - 2);
  }

  /** What the branch for the request line finds when it does not read past the end. */
  lemma LineCases(s: string, logsInfo: bool)
    requires !ReadsPast(s, logsInfo)
    ensures s[..|s|] == s
    ensures if FirstCRLF(s) == |s| then !logsInfo && Refused(s) && ScanLine(s) == None && Parse(s) == BadLine
            else
              var end := FirstCRLF(s) + 2;
              && end <= |s|
              && Parse(s) == match ScanLine(s[..end]) case None => BadLine case Some(l) => ParseHeaders(s[end..], FromLine(l))
  {
    hide FirstCRLF, ScanLine, ParseHeaders, Refused;
    FirstCRLFIsFirst(s);
    if FirstCRLF(s) == |s| {
      NoLineWithoutCRLF(s);
    }
  }

  /** After a header line there is always more to read, or the head would be incomplete. */
  lemma FieldThere(s: string, r: Request)
    requires ParseHeaders(s, r) != HeadIncomplete
    requires IndexOf(s[..FirstCRLF(s)], ':') < FirstCRLF(s)
    ensures FirstCRLF(s) + 2 <= |s|
    ensures var line := s[..FirstCRLF(s)]; var colon := IndexOf(line, ':'); var rest := s[FirstCRLF(s) + 2..];
      && rest != ""
      && ParseHeaders(s, r)
         == ParseHeaders(rest, r.(headers := r.headers[line[..colon] := TrimRight(TrimLeft(line[colon + 1..]))]))
  {
    hide FirstCRLF, TrimLeft, TrimRight, IndexOf, AfterHead, LengthThrows;
    FirstCRLFIsFirst(s);
    var line := s[..FirstCRLF(s)];
    var colon := IndexOf(line, ':');
    assert line[colon + 1..] == s[colon + 1..FirstCRLF(s)] && line[..colon] == s[..colon];
    NothingIsIncomplete(r.(headers := r.headers[line[..colon] := TrimRight(TrimLeft(line[colon + 1..]))]));
  }

  lemma NothingIsIncomplete(r: Request)
    ensures ParseHeaders("", r) == HeadIncomplete
  {
  }

  /** Without a colon the line ends the head; if its line break is missing there is a length to throw on. */
  lemma EndThere(s: string, r: Request)
    requires ParseHeaders(s, r) != HeadIncomplete
    requires IndexOf(s[..FirstCRLF(s)], ':') == FirstCRLF(s)
    ensures if LengthThrows(r.headers) then ParseHeaders(s, r) == BadLength(r, s)
            else FirstCRLF(s) + 2 <= |s| && ParseHeaders(s, r) == AfterHead(s[FirstCRLF(s) + 2..], r)
  {
    hide FirstCRLF, TrimLeft, TrimRight, IndexOf, AfterHead, LengthThrows;
    FirstCRLFIsFirst(s);
    if s == "" {
      NothingIsIncomplete(r);
    }
  }

  class HttpRequest {
    var verb: Method
    var path: string
    var query: string
    var version: Version
    var receivedTime: int
    var headers: map<string, string>
    var body: string

    constructor ()
      ensures Value() == FromLine(START.line)
    {
      verb, path, query, version := Invalid, "", "", Unknown;
      receivedTime, headers, body := 0, map[], "";
    }

    ghost function Value(): Request
      reads `verb, `path, `query, `version, `headers, `body
    {
      Request(verb, path, query, version, headers, body)
    }

    method SetMethod(name: string) returns (ok: bool)
      requires verb == Invalid
      modifies `verb
      ensures verb == MethodOf(name) && ok == (verb != Invalid)
    {
      if name == "GET" {
        verb := Get;
      } else if name == "POST" {
        verb := Post;
      } else if name == "DELETE" {
        verb := Delete;
      } else if name == "PUT" {
        verb := Put;
      } else if name == "HEAD" {
        verb := Head;
      } else {
        verb := Invalid;
      }
      ok := verb != Invalid;
    }

    /** The method's printed name is one of the known ones. */
    predicate IsValidMethod(): (ok: bool)
      reads `verb
      ensures ok == (verb != Invalid)
    {
      var name := NameOf(verb);
      name == "GET" || name == "POST" || name == "HEAD" || name == "PUT" || name == "DELETE"
    }

    method SetPath(p: string)
      modifies `path
      ensures path == p
    {
      path := p;
    }

    method SetQuery(q: string)
      modifies `query
      ensures query == q
    {
      query := q;
    }

    method SetVersion(v: Version)
      modifies `version
      ensures version == v
    {
      version := v;
    }

    /** Splits a header line at its colon and trims the value at both ends. */
    method AddHeaders(line: string, colon: nat)
      requires colon < |line|
      modifies `headers
      ensures headers == old(headers)[line[..colon] := TrimRight(TrimLeft(line[colon + 1..]))]
    {
      var field := line[..colon];
      var c := colon + 1;
      while c != |line| && IsSpace(line[c])
        invariant colon < c <= |line|
        invariant TrimLeft(line[c..]) == TrimLeft(line[colon + 1..])
      {
        assert line[c..][1..] == line[c + 1..];
        c := c + 1;
      }
      var value := line[c..];
      assert value == TrimLeft(line[colon + 1..]);
      while value != "" && IsSpace(value[|value| - 1])
        invariant TrimRight(value) == TrimRight(TrimLeft(line[colon + 1..]))
        decreases |value|
      {
        value := value[..|value| - 1];
      }
      headers := headers[field := value];
    }

    function GetHeader(field: string): string
      reads `headers
    {
      Header(headers, field)
    }

    method SetBody(b: string)
      modifies `body
      ensures body == b
    {
      body := b;
    }
  }

  datatype ParseState = ExpectRequestLine | ExpectRequestHeader | ExpectRequestBody | GotAll

  class HttpContext {
    const request: HttpRequest
    var state: ParseState

    constructor ()
      ensures Fresh() && fresh(request)
    {
      request := new HttpRequest();
      state := ExpectRequestLine;
    }

    ghost predicate Fresh()
      reads this, request
    {
      state == ExpectRequestLine && request.Value() == FromLine(START.line)
    }

    /** The request holds what the scanner has found so far, and otherwise what it held before. */
    ghost predicate Found(s: Scanner, before: Request)
      reads request`verb, request`path, request`query, request`version
    {
      && request.verb == (if s.state == InMethod then before.verb else s.line.verb)
      && request.path == (if s.state in {InMethod, SpacesBeforePath, InPath} then before.path else s.line.path)
      && request.query == (if s.line.query.Some? then s.line.query.value else before.query)
      && request.version == (if s.state in {AtCR, Done} then s.line.version else before.version)
    }

    /** What reading a line makes of a request: a query that is not given stays what it was. */
    ghost function WithLine(r: Request, l: Line): Request {
      r.(verb := l.verb, path := l.path, query := if l.query.Some? then l.query.value else r.query, version := l.version)
    }

    method ReadVersion(v: string) returns (known: bool)
      modifies request`version
      ensures known == (VersionOf(v) != Unknown)
      ensures request.version == if known then VersionOf(v) else old(request.version)
    {
      known := true;
      if v == "HTTP/1.1" {
        request.SetVersion(Http11);
      } else if v == "HTTP/1.0" {
        request.SetVersion(Http10);
      } else {
        known := false;
      }
    }

    /** In these states the scanner is inside a token, which begins at `start`. */
    ghost predicate InToken(s: Scanner, text: string, start: nat, p: nat)
      requires start <= p <= |text|
    {
      && s.state !in {Done, Failed}
      && (s.state == InMethod ==> start == 0)
      && (s.state in {InMethod, InPath, InQuery, InVersion} ==> s.token == text[start..p])
    }

    /** The switch on one character: the state it leads to, where Done and Failed end the scan, and where
        the current token begins. */
    method ReadChar(text: string, start: nat, p: nat, state: State, ghost s: Scanner, ghost before: Request)
      returns (next: State, begin: nat)
      requires start <= p < |text| && s.state == state && before.verb == Invalid
      requires InToken(s, text, start, p) && Found(s, before)
      modifies request`verb, request`path, request`query, request`version
      ensures next == Next(s, text[p]).state
      ensures next != Failed ==> Found(Next(s, text[p]), before)
      ensures next !in {Done, Failed} ==> begin <= p + 1 && InToken(Next(s, text[p]), text, begin, p + 1)
    {
      hide MethodOf, VersionOf;
      TokenStep(text, start, p);
      var ch := text[p];
      next, begin := state, start;
      match state {
        case InMethod =>
          if ch == ' ' {
            if p == start {
              return Failed, start;
            }
            var known := request.SetMethod(text[start..p]);
            if !request.IsValidMethod() {
              return Failed, start;
            }
            next := SpacesBeforePath;
          }
        case SpacesBeforePath =>
          if ch != ' ' {
            if ch != '/' {
              return Failed, start;
            }
            next, begin := InPath, p;
          }
        case InPath =>
          if ch == '?' {
            request.SetPath(text[start..p]);
            next, begin := InQuery, p + 1;
          } else if ch == ' ' {
            request.SetPath(text[start..p]);
            next := SpacesBeforeVersion;
          } else if ch == '\r' || ch == '\n' {
            return Failed, start;
          }
        case InQuery =>
          if ch == ' ' {
            request.SetQuery(text[start..p]);
            next := SpacesBeforeVersion;
          } else if ch == '\r' || ch == '\n' {
            return Failed, start;
          }
        case SpacesBeforeVersion =>
          if ch != ' ' {
            if ch != 'H' {
              return Failed, start;
            }
            next, begin := InVersion, p;
          }
        case InVersion =>
          if ch == '\r' {
            var known := ReadVersion(text[start..p]);
            if !known {
              return Failed, start;
            }
            next := AtCR;
          }
        case AtCR =>
          return if ch == '\n' then Done else Failed, start;
      }
    }

    /** The inner state machine, on the characters up to `end`.  That may lie behind the readable ones if
        the line is refused before they end, and is not logged. */
    method ParseRequestLine(text: string, end: nat, logsInfo: bool) returns (ok: bool, logged: string)
      requires request.verb == Invalid
      requires logsInfo ==> end <= |text|
      requires end <= |text| || Refused(text)
      modifies request`verb, request`path, request`query, request`version
      ensures var l := ScanLine(if end <= |text| then text[..end] else text);
        && ok == l.Some?
        && (ok ==> request.Value() == WithLine(old(request.Value()), l.value))
      ensures logged == if logsInfo then text[..end] else ""
    {
      hide Scan, ScanLine, Next, Refused;
      RefusedBy(text);
      logged := if logsInfo then text[..end] else "";
      var state := InMethod;
      var start: nat := 0;
      var p: nat := 0;
      ghost var s := START;
      ghost var seen := if end <= |text| then text[..end] else text;
      ghost var before := request.Value();
      ScanStart(seen);
      while p != end
        invariant start <= p <= |seen| && p <= end && p <= MAX_REQUEST_LINE + 1
        invariant s == Scan(START, seen[..p]) && s.state == state
        invariant InToken(s, text, start, p) && Found(s, before)
      {
        if p > MAX_REQUEST_LINE {
          ScanUnfinished(seen, p);
          return false, logged;
        }
        ScanStep(seen, p);
        state, start := ReadChar(text, start, p, state, s, before);
        s := Next(s, text[p]);
        if state == Done || state == Failed {
          ScanEnds(seen, p + 1);
          return state == Done, logged;
        }
        p := p + 1;
      }
      ScanUnfinished(seen, p);
      return false, logged;
    }

    /** The branch of the outer loop that expects the request line. */
    method TakeRequestLine(buffer: Buffer, receivedTime: int, logsInfo: bool) returns (done: bool)
      requires Fresh() && buffer.Valid() && !ReadsPast(buffer.Contents(), logsInfo)
      modifies `state, request
      modifies buffer`readerIndex, buffer`writerIndex, buffer`taken
      ensures buffer.Valid()
      ensures done ==> state == ExpectRequestHeader && request.receivedTime == receivedTime
                       && ParseHeaders(buffer.Contents(), request.Value()) == Parse(old(buffer.Contents()))
      ensures !done ==> state == ExpectRequestLine && Parse(old(buffer.Contents())) == BadLine
                        && buffer.Contents() == old(buffer.Contents())
    {
      hide FirstCRLF, ScanLine, ParseHeaders, Refused, Parse, ReadsPast, Buffer.Contents;
      ghost var s := buffer.Contents();
      LineCases(s, logsInfo);
      var crlf := buffer.FindCRLF();
      var text := buffer.buffer[buffer.readerIndex..buffer.writerIndex];
      Window(buffer, buffer.writerIndex);
      var logged;
      done, logged := ParseRequestLine(text, crlf + 2 - buffer.readerIndex, logsInfo);
      if done {
        request.receivedTime := receivedTime;
        buffer.Retrieve(crlf + 2 - buffer.readerIndex);
        state := ExpectRequestHeader;
      }
    }

    /** The array between the reader's index and `end` is the beginning of the contents. */
    lemma Window(buffer: Buffer, end: nat)
      requires buffer.Valid() && buffer.readerIndex <= end <= buffer.writerIndex
      ensures |buffer.Contents()| == buffer.writerIndex - buffer.readerIndex
      ensures buffer.buffer[buffer.readerIndex..end] == buffer.Contents()[..end - buffer.readerIndex]
    {
      assert |buffer.buffer[buffer.readerIndex..buffer.writerIndex]| == |buffer.Contents()|;
      assert buffer.buffer[buffer.readerIndex..end]
          == buffer.buffer[buffer.readerIndex..buffer.writerIndex][..end - buffer.readerIndex];
    }

    /** The branch that expects a header line. */
    method TakeHeader(buffer: Buffer) returns (hasMore: bool, contentLength: int, threw: bool)
      requires state == ExpectRequestHeader && buffer.Valid()
      requires ParseHeaders(buffer.Contents(), request.Value()) != HeadIncomplete
      modifies `state, request`headers
      modifies buffer`readerIndex, buffer`writerIndex, buffer`taken
      ensures buffer.Valid() && (!threw ==> |buffer.Contents()| < |old(buffer.Contents())|)
      ensures 0 <= contentLength
      ensures var o := old(ParseHeaders(buffer.Contents(), request.Value()));
        if threw then state == ExpectRequestHeader && o == BadLength(request.Value(), buffer.Contents())
        else match state
          case ExpectRequestHeader => hasMore && ParseHeaders(buffer.Contents(), request.Value()) == o
          case ExpectRequestBody => hasMore && ParseBody(buffer.Contents(), request.Value(), contentLength) == o
          case GotAll => !hasMore && o == Complete(request.Value(), buffer.Contents())
          case ExpectRequestLine => false
    {
      hide FirstCRLF, TrimLeft, TrimRight, IndexOf, Stoi, ParseHeaders, ParseBody, Header, Buffer.Contents, AsSize;
      ghost var s := buffer.Contents();
      ghost var r := request.Value();
      hasMore, contentLength, threw := true, 0, false;
      var crlf, line := FindLine(buffer);
      var colon := IndexOf(line, ':');
      if colon < |line| {
        FieldThere(s, r);
        request.AddHeaders(line, colon);
        RetrieveLine(buffer, crlf);
        RetrieveAgain(buffer, crlf);
      } else if request.GetHeader(CONTENT_LENGTH) != "" {
        EndThere(s, r);
        var n := Stoi(request.GetHeader(CONTENT_LENGTH));
        if n == None {
          threw := true;
        } else {
          contentLength := AsSize(n.value);
          state := ExpectRequestBody;
          RetrieveLine(buffer, crlf);
        }
      } else {
        EndThere(s, r);
        hasMore := false;
        state := GotAll;
        RetrieveLine(buffer, crlf);
      }
    }

    method FindLine(buffer: Buffer) returns (crlf: nat, line: string)
      requires buffer.Valid()
      ensures crlf == buffer.readerIndex + FirstCRLF(buffer.Contents())
      ensures line == buffer.Contents()[..FirstCRLF(buffer.Contents())]
    {
      hide FirstCRLF;
      crlf := buffer.FindCRLF();
      Window(buffer, crlf);
      line := buffer.buffer[buffer.readerIndex..crlf];
    }

    /** The retrieve that every branch but the throwing one ends with. */
    method RetrieveLine(buffer: Buffer, crlf: nat)
      requires buffer.Valid() && FirstCRLF(buffer.Contents()) + 2 <= |buffer.Contents()|
      requires crlf == buffer.readerIndex + FirstCRLF(buffer.Contents())
      modifies buffer`readerIndex, buffer`writerIndex, buffer`taken
      ensures buffer.Valid() && buffer.Contents() == old(buffer.Contents()[FirstCRLF(buffer.Contents()) + 2..])
      ensures buffer.Contents() != "" ==> buffer.readerIndex == crlf + 2
    {
      hide FirstCRLF;
      buffer.Retrieve(crlf + 2 - buffer.readerIndex);
    }

    /** A header line is retrieved twice.  The second retrieve takes nothing, unless the first one emptied
        the buffer and moved the reader's index back: then it would ask for too much. */
    method RetrieveAgain(buffer: Buffer, crlf: nat)
      requires buffer.Valid() && buffer.Contents() != "" && buffer.readerIndex == crlf + 2
      modifies buffer`readerIndex, buffer`writerIndex, buffer`taken
      ensures buffer.Valid() && buffer.Contents() == old(buffer.Contents())
    {
      buffer.Retrieve(crlf + 2 - buffer.readerIndex);
    }

    /** The branch that expects the body. */
    method TakeBody(buffer: Buffer, contentLength: int)
      requires state == ExpectRequestBody && buffer.Valid() && 0 <= contentLength
      modifies `state, request`body
      modifies buffer`readerIndex, buffer`writerIndex, buffer`taken
      ensures buffer.Valid()
      ensures var o := old(ParseBody(buffer.Contents(), request.Value(), contentLength));
        if state == GotAll then o == Complete(request.Value(), buffer.Contents())
        else state == ExpectRequestBody && o == BodyMissing(request.Value(), buffer.Contents())
    {
      if buffer.ReadableBytes() >= contentLength {
        var body := buffer.RetrieveAsString(contentLength);
        request.SetBody(body);
        state := GotAll;
      }
    }

    /** The outer state machine, on a fresh context and bytes the call does not read past the end of. */
    method ParseRequest(buffer: Buffer, receivedTime: int, logsInfo: bool) returns (done: bool, threw: bool)
      requires Fresh() && buffer.Valid() && !ReadsPast(buffer.Contents(), logsInfo)
      modifies `state, request
      modifies buffer`readerIndex, buffer`writerIndex, buffer`taken
      ensures buffer.Valid()
      ensures match old(Parse(buffer.Contents()))
        case Complete(r, rest) => done && !threw && state == GotAll && request.Value() == r && buffer.Contents() == rest
        case BodyMissing(r, rest) =>
          done && !threw && state == ExpectRequestBody && request.Value() == r && buffer.Contents() == rest
        case BadLine => !done && !threw && state == ExpectRequestLine && buffer.Contents() == old(buffer.Contents())
        case BadLength(r, rest) =>
          threw && state == ExpectRequestHeader && request.Value() == r && buffer.Contents() == rest
        case HeadIncomplete => false
      ensures done ==> request.receivedTime == receivedTime
    {
      hide Parse, ParseHeaders, ParseBody, Buffer.Contents;
      done, threw := true, false;
      var hasMore := true;
      var contentLength := 0;
      ghost var o := Parse(buffer.Contents());
      while hasMore
        invariant buffer.Valid() && 0 <= contentLength && !threw
        invariant state != ExpectRequestLine ==> done && request.receivedTime == receivedTime
        invariant match state
          case ExpectRequestLine =>
            if hasMore then done && Fresh() && buffer.Contents() == old(buffer.Contents())
            else !done && o == BadLine && buffer.Contents() == old(buffer.Contents())
          case ExpectRequestHeader => hasMore && ParseHeaders(buffer.Contents(), request.Value()) == o
          case ExpectRequestBody =>
            if hasMore then ParseBody(buffer.Contents(), request.Value(), contentLength) == o
            else o == BodyMissing(request.Value(), buffer.Contents())
          case GotAll => !hasMore && o == Complete(request.Value(), buffer.Contents())
        decreases hasMore, if state == ExpectRequestLine then 2 else if state == ExpectRequestHeader then 1 else 0,
                  |buffer.Contents()|
      {
        match state {
          case ExpectRequestLine =>
            done := TakeRequestLine(buffer, receivedTime, logsInfo);
            hasMore := done;
          case ExpectRequestHeader =>
            hasMore, contentLength, threw := TakeHeader(buffer);
            if threw {
              return;
            }
          case ExpectRequestBody =>
            TakeBody(buffer, contentLength);
            hasMore := false;
        }
      }
    }
  }
}
