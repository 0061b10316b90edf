/** The parser inverts the printer: it completes exactly on the bytes that begin with a well-formed
    message, with that message's parts and the bytes after it. */
module HttpTheorems {
  import opened Basics
  import opened RequestLines
  import opened ByteBuffers
  import opened HttpMessages
  import IntPrinters

  // ----- trimming -----

  lemma {:induction false} TrimLeftPadded(lead: string, s: string)
    requires AllSpace(lead) && (s != "" ==> !IsSpace(s[0]))
    ensures TrimLeft(lead + s) == s
  {
    if lead != "" {
      assert (lead + s)[1..] == lead[1..] + s;
      TrimLeftPadded(lead[1..], s);
    } else {
      assert lead + s == s;
    }
  }

  lemma {:induction false} TrimRightPadded(s: string, trail: string)
    requires AllSpace(trail) && (s != "" ==> !IsSpace(s[|s| - 1]))
    ensures TrimRight(s + trail) == s
  {
    if trail != "" {
      assert (s + trail)[..|s + trail| - 1] == s + trail[..|trail| - 1];
      TrimRightPadded(s, trail[..|trail| - 1]);
    } else {
      assert s + trail == s;
    }
  }

  /** Trimming gives back the value whatever white space is around it. */
  lemma TrimPadded(lead: string, value: string, trail: string)
    requires AllSpace(lead) && AllSpace(trail) && Trimmed(value)
    ensures TrimRight(TrimLeft(lead + value + trail)) == value
  {
    if value == "" {
      assert lead + value + trail == lead + trail + "";
      TrimLeftPadded(lead + trail, "");
    } else {
      assert lead + value + trail == lead + (value + trail);
      TrimLeftPadded(lead, value + trail);
      TrimRightPadded(value, trail);
    }
  }

  lemma {:induction false} TrimLeftParts(s: string) returns (lead: string)
    ensures s == lead + TrimLeft(s) && AllSpace(lead)
    ensures TrimLeft(s) != "" ==> !IsSpace(TrimLeft(s)[0])
  {
    if s != "" && IsSpace(s[0]) {
      lead := TrimLeftParts(s[1..]);
      lead := [s[0]] + lead;
      assert s == [s[0]] + s[1..];
    } else {
      lead := "";
    }
  }

  lemma {:induction false} TrimRightParts(s: string) returns (trail: string)
    ensures s == TrimRight(s) + trail && AllSpace(trail)
    ensures TrimRight(s) != "" ==> !IsSpace(TrimRight(s)[|TrimRight(s)| - 1]) && TrimRight(s)[0] == s[0]
  {
    if s != "" && IsSpace(s[|s| - 1]) {
      trail := TrimRightParts(s[..|s| - 1]);
      trail := trail + [s[|s| - 1]];
      assert s == s[..|s| - 1] + [s[|s| - 1]];
    } else {
      trail := "";
    }
  }

  /** And what it gives is trimmed, with only white space taken off. */
  lemma TrimParts(s: string) returns (lead: string, trail: string)
    ensures s == lead + TrimRight(TrimLeft(s)) + trail
    ensures AllSpace(lead) && AllSpace(trail) && Trimmed(TrimRight(TrimLeft(s)))
  {
    lead := TrimLeftParts(s);
    trail := TrimRightParts(TrimLeft(s));
  }

  // ----- lines -----

  lemma LineEnds(line: string, rest: string)
    requires NoCRLF(line)
    ensures FirstCRLF(line + "\r\n" + rest) == |line|
  {
    var s := line + "\r\n" + rest;
    forall i | i < |line| ensures !CRLFAt(s, i) {
      assert i >= 0 && i + 2 <= |line| ==> !CRLFAt(line, i);
    }
    FirstCRLFUnique(s, |line|);
  }

  /** The part of a text before its first CRLF has none. */
  lemma LineHasNone(s: string)
    requires FirstCRLF(s) < |s|
    ensures var k := FirstCRLF(s); k + 2 <= |s| && NoCRLF(s[..k]) && s == s[..k] + "\r\n" + s[k + 2..]
  {
    hide FirstCRLF;
    FirstCRLFIsFirst(s);
    var k := FirstCRLF(s);
    forall i | 0 <= i < k ensures !CRLFAt(s[..k], i) {
      assert !CRLFAt(s, i);
    }
    Cut(s, k);
  }

  lemma Cut(s: string, k: nat)
    requires CRLFAt(s, k)
    ensures s == s[..k] + "\r\n" + s[k + 2..]
  {
    assert s[k..k + 2] == "\r\n";
  }

  function Stem(l: Line): string {
    NameOf(l.verb) + Spaces(l.gap) + l.path + QueryText(l.query) + Spaces(l.gap2) + TextOf(l.version)
  }

  lemma StemHasNoCRLF(l: Line)
    requires WellFormed(l)
    ensures Text(l) == Stem(l) + "\r\n" && NoCRLF(Stem(l))
  {
    assert Free(NameOf(l.verb) + Spaces(l.gap), {'\r'});
    assert Free(l.path + QueryText(l.query), {'\r'});
    assert Free(Spaces(l.gap2) + TextOf(l.version), {'\r'});
    assert Stem(l) == (NameOf(l.verb) + Spaces(l.gap)) + (l.path + QueryText(l.query)) + (Spaces(l.gap2) + TextOf(l.version));
    assert Free(Stem(l), {'\r'});
  }

  // ----- reading what was written -----

  lemma FieldRead(f: Field, rest: string, r: Request)
    requires GoodField(f)
    ensures ParseHeaders(FieldLine(f) + "\r\n" + rest, r)
         == ParseHeaders(rest, r.(headers := r.headers[f.name := f.value]))
  {
    hide FirstCRLF, TrimLeft, TrimRight, AfterHead, NoCRLF, AllSpace, Trimmed, LengthThrows;
    var line := FieldLine(f);
    var s := line + "\r\n" + rest;
    LineEnds(line, rest);
    var padded := f.lead + f.value + f.trail;
    Padded(f.name + ":", f.lead, f.value, f.trail);
    assert s[..|line|] == line && s[|line| + 2..] == rest;
    assert line[|f.name|] == ':';
    assert forall i :: 0 <= i < |f.name| ==> line[i] == f.name[i];
    assert IndexOf(line, ':') == |f.name|;
    assert s[|f.name| + 1..|line|] == padded && s[..|f.name|] == f.name;
    TrimPadded(f.lead, f.value, f.trail);
  }

  lemma {:induction false} FieldsRead(fs: seq<Field>, rest: string, r: Request)
    requires GoodFields(fs)
    ensures ParseHeaders(FieldsText(fs) + rest, r) == ParseHeaders(rest, r.(headers := HeadersOf(r.headers, fs)))
    decreases |fs|
  {
    hide ParseHeaders, FieldLine, GoodField;
    if fs == [] {
      assert FieldsText(fs) + rest == rest;
    } else {
      var more := FieldsText(fs[1..]) + rest;
      assert FieldsText(fs) + rest == FieldLine(fs[0]) + "\r\n" + more;
      FieldRead(fs[0], more, r);
      FieldsRead(fs[1..], rest, r.(headers := r.headers[fs[0].name := fs[0].value]));
    }
  }

  /** How the head ends: the content length is converted, and then the rest is the body. */
  function EndOfHead(end: string, rest: string, r: Request): Outcome {
    if LengthThrows(r.headers) then BadLength(r, end + "\r\n" + rest) else AfterHead(rest, r)
  }

  lemma EndRead(end: string, rest: string, r: Request)
    requires GoodEnd(end)
    ensures ParseHeaders(end + "\r\n" + rest, r) == EndOfHead(end, rest, r)
  {
    hide FirstCRLF, AfterHead, NoCRLF, LengthThrows;
    var s := end + "\r\n" + rest;
    LineEnds(end, rest);
    assert s[..|end|] == end && s[|end| + 2..] == rest;
  }

  lemma LineRead(l: Line, rest: string)
    requires WellFormed(l) && |Text(l)| <= MAX_REQUEST_LINE + 1
    ensures Parse(Text(l) + rest) == ParseHeaders(rest, FromLine(l))
  {
    hide FirstCRLF, ScanLine, ParseHeaders, WellFormed, Stem, Text, NoCRLF;
    var s := Text(l) + rest;
    StemHasNoCRLF(l);
    LineEnds(Stem(l), rest);
    assert s[..|Stem(l)| + 2] == Text(l) && s[|Stem(l)| + 2..] == rest;
    AcceptsIff(Text(l), l);
  }

  ghost predicate GoodHead(m: Message) {
    WellFormed(m.line) && |Text(m.line)| <= MAX_REQUEST_LINE + 1 && GoodFields(m.fields) && GoodEnd(m.end)
  }

  function HeadOf(m: Message): Request {
    FromLine(m.line).(headers := HeadersOf(map[], m.fields))
  }

  /** The head of a written message is read to its end, whatever follows it. */
  lemma HeadRead(m: Message, rest: string)
    requires GoodHead(m)
    ensures Parse(HeadText(m) + rest) == EndOfHead(m.end, rest, HeadOf(m))
  {
    hide ParseHeaders, Parse, EndOfHead, FieldsText, HeadersOf, WellFormed, Text, GoodFields, GoodEnd;
    var afterLine := FieldsText(m.fields) + (m.end + "\r\n" + rest);
    assert HeadText(m) + rest == Text(m.line) + afterLine;
    LineRead(m.line, afterLine);
    FieldsRead(m.fields, m.end + "\r\n" + rest, FromLine(m.line));
    EndRead(m.end, rest, HeadOf(m));
  }

  /** Parsing inverts printing: a written message followed by any bytes is parsed into exactly its parts,
      and exactly those bytes are left. */
  lemma ParseInvertsPrint(m: Message, tail: string)
    requires GoodMessage(m)
    ensures Parse(Print(m) + tail) == Complete(RequestOf(m), tail)
    ensures var r := RequestOf(m);
      && r.verb == m.line.verb && r.path == m.line.path && r.version == m.line.version
      && r.query == (if m.line.query.Some? then m.line.query.value else "")
      && r.body == m.body
  {
    hide Parse, HeadText, HeadersOf, Stoi, WellFormed, GoodFields, GoodEnd, Text;
    HeadRead(m, m.body + tail);
    assert Print(m) + tail == HeadText(m) + (m.body + tail);
    assert (m.body + tail)[..|m.body|] == m.body && (m.body + tail)[|m.body|..] == tail;
    var r := FromLine(m.line).(headers := HeadersOf(map[], m.fields));
    assert GoodBody(r.headers, m.body);
  }

  // ----- only what was written is read -----

  lemma FieldFound(line: string) returns (f: Field)
    requires NoCRLF(line) && IndexOf(line, ':') < |line|
    ensures GoodField(f) && FieldLine(f) == line
    ensures var colon := IndexOf(line, ':');
      f.name == line[..colon] && f.value == TrimRight(TrimLeft(line[colon + 1..]))
  {
    hide TrimLeft, TrimRight, IndexOf, AllSpace, Trimmed, NoCRLF;
    var colon := IndexOf(line, ':');
    var padded := line[colon + 1..];
    var lead, trail := TrimParts(padded);
    f := Field(line[..colon], lead, TrimRight(TrimLeft(padded)), trail);
    SplitAt(line, colon);
    Padded(line[..colon] + ":", lead, f.value, trail);
  }

  lemma SplitAt(line: string, colon: nat)
    requires colon < |line| && line[colon] == ':'
    ensures line == line[..colon] + ":" + line[colon + 1..]
  {
  }

  lemma Padded(a: string, b: string, c: string, d: string)
    ensures a + b + c + d == a + (b + c + d)
  {
  }

  /** A line with a colon is a field, and the parser goes on behind it. */
  lemma FieldFirst(s: string, r: Request) returns (f: Field, more: string)
    requires FirstCRLF(s) < |s| && IndexOf(s[..FirstCRLF(s)], ':') < FirstCRLF(s)
    ensures GoodField(f) && s == FieldLine(f) + "\r\n" + more && |more| < |s|
    ensures ParseHeaders(s, r) == ParseHeaders(more, r.(headers := r.headers[f.name := f.value]))
  {
    hide FirstCRLF, ParseHeaders, FieldLine, GoodField, NoCRLF, IndexOf, TrimLeft, TrimRight;
    LineHasNone(s);
    f := FieldFound(s[..FirstCRLF(s)]);
    more := s[FirstCRLF(s) + 2..];
    FieldRead(f, more, r);
  }

  lemma FieldsCons(f: Field, fs: seq<Field>, headers: map<string, string>)
    ensures FieldsText([f] + fs) == FieldLine(f) + "\r\n" + FieldsText(fs)
    ensures HeadersOf(headers, [f] + fs) == HeadersOf(headers[f.name := f.value], fs)
  {
    assert ([f] + fs)[1..] == fs;
  }

  lemma NoFields(headers: map<string, string>)
    ensures FieldsText([]) == "" && HeadersOf(headers, []) == headers
  {
  }

  /** What is left when the header lines have been taken off: it has no line break, or its first line has
      no colon. */
  ghost predicate NoFieldFirst(s: string) {
    FirstCRLF(s) == |s| || NoColon(s[..FirstCRLF(s)])
  }

  /** Any bytes are some header lines and such a remainder, and the parser goes on with that. */
  lemma {:induction false} FieldsFound(s: string, r: Request) returns (fs: seq<Field>, part: string)
    ensures GoodFields(fs) && s == FieldsText(fs) + part && NoFieldFirst(part)
    ensures ParseHeaders(s, r) == ParseHeaders(part, r.(headers := HeadersOf(r.headers, fs)))
    decreases |s|
  {
    hide FirstCRLF, ParseHeaders, FieldLine, GoodField, FieldsText, HeadersOf, IndexOf;
    if FirstCRLF(s) < |s| && IndexOf(s[..FirstCRLF(s)], ':') < FirstCRLF(s) {
      var f, behind := FieldFirst(s, r);
      var more;
      more, part := FieldsFound(behind, r.(headers := r.headers[f.name := f.value]));
      fs := [f] + more;
      FieldsCons(f, more, r.headers);
      assert FieldsText(fs) + part == FieldLine(f) + "\r\n" + behind;
    } else {
      fs, part := [], s;
      NoColonIff(s[..FirstCRLF(s)]);
      NoFields(r.headers);
      assert FieldsText(fs) + part == s;
    }
  }

  /** The parser takes these bytes for the end of the head. */
  ghost predicate EndsHead(part: string) {
    part != "" && NoColon(part[..FirstCRLF(part)])
  }

  /** There is no line break, and no bad length to throw on before that is noticed. */
  ghost predicate StopsShort(part: string, headers: map<string, string>) {
    NoCRLF(part) && !(EndsHead(part) && LengthThrows(headers))
  }

  lemma NoCRLFIff(s: string)
    ensures NoCRLF(s) <==> FirstCRLF(s) == |s|
  {
    hide FirstCRLF;
    FirstCRLFIsFirst(s);
  }

  lemma NoColonIff(s: string)
    ensures NoColon(s) <==> IndexOf(s, ':') == |s|
  {
  }

  lemma RemainderRead(part: string, r: Request)
    requires NoFieldFirst(part)
    ensures ParseHeaders(part, r).HeadIncomplete? <==> StopsShort(part, r.headers)
    ensures ParseHeaders(part, r).BadLength? <==> EndsHead(part) && LengthThrows(r.headers)
    ensures ParseHeaders(part, r).BadLength? ==> ParseHeaders(part, r) == BadLength(r, part)
    ensures !ParseHeaders(part, r).BadLine?
  {
    hide FirstCRLF, NoCRLF, LengthThrows, IndexOf, NoColon;
    NoCRLFIff(part);
    NoColonIff(part[..FirstCRLF(part)]);
  }

  /** The line of any text the parser gets past, as it was written. */
  lemma LineFound(s: string) returns (l: Line, behind: string)
    requires FirstCRLF(s) < |s| && !Parse(s).BadLine?
    ensures WellFormed(l) && |Text(l)| <= MAX_REQUEST_LINE + 1 && s == Text(l) + behind
  {
    hide FirstCRLF, ScanLine, ParseHeaders, WellFormed, Text, NoCRLF;
    LineHasNone(s);
    var text := s[..FirstCRLF(s) + 2];
    l := ScanLine(text).value;
    AcceptsIff(text, l);
    WholeLine(s, text, l);
    behind := s[FirstCRLF(s) + 2..];
  }

  /** An accepted line up to the first CRLF is the whole of it. */
  lemma WholeLine(s: string, text: string, l: Line)
    requires FirstCRLF(s) < |s| && FirstCRLF(s) + 2 <= |s| && text == s[..FirstCRLF(s) + 2]
    requires WellFormed(l) && Text(l) <= text
    ensures Text(l) == text
  {
    hide WellFormed, Text, Stem, FirstCRLF;
    StemHasNoCRLF(l);
    FirstCRLFIsFirst(s);
    assert CRLFAt(s, |Stem(l)|);
  }

  // ----- each way a call can end, and exactly when -----

  /** The bytes begin with a good request line within the limit and some header lines. */
  ghost predicate Begins(s: string, l: Line, fs: seq<Field>, part: string) {
    && WellFormed(l) && |Text(l)| <= MAX_REQUEST_LINE + 1 && GoodFields(fs)
    && s == Text(l) + FieldsText(fs) + part && NoFieldFirst(part)
  }

  lemma BeginningRead(s: string, l: Line, fs: seq<Field>, part: string)
    requires Begins(s, l, fs, part)
    ensures Parse(s) == ParseHeaders(part, FromLine(l).(headers := HeadersOf(map[], fs)))
    ensures FirstCRLF(s) < |s|
  {
    hide Parse, ParseHeaders, FieldsText, WellFormed, Text, GoodFields, FirstCRLF, NoFieldFirst, HeadersOf, Stem, NoCRLF;
    assert s == Text(l) + (FieldsText(fs) + part);
    LineRead(l, FieldsText(fs) + part);
    FieldsRead(fs, part, FromLine(l));
    StemHasNoCRLF(l);
    assert s == Stem(l) + "\r\n" + (FieldsText(fs) + part);
    LineEnds(Stem(l), FieldsText(fs) + part);
  }

  /** All bytes with a line break begin so, unless the line is refused. */
  lemma BeginningFound(s: string) returns (l: Line, fs: seq<Field>, part: string)
    requires FirstCRLF(s) < |s| && !Parse(s).BadLine?
    ensures Begins(s, l, fs, part)
  {
    hide Parse, ParseHeaders, FieldsText, WellFormed, Text, GoodFields, FirstCRLF, NoFieldFirst;
    var behind;
    l, behind := LineFound(s);
    fs, part := FieldsFound(behind, FromLine(l));
    assert s == Text(l) + FieldsText(fs) + part;
  }

  /** The log line aside, the call reads or retrieves past the readable bytes exactly when they have no line
      break and are not refused within themselves, or begin with a good line and header lines and then stop
      short. */
  lemma HeadIncompleteIff(s: string)
    ensures Parse(s).HeadIncomplete?
       <==> ((NoCRLF(s) && !Refused(s))
             || exists l, fs, part :: Begins(s, l, fs, part) && StopsShort(part, HeadersOf(map[], fs)))
  {
    hide ParseHeaders, NoCRLF, Refused, FirstCRLF, Begins, StopsShort, HeadersOf, ScanLine;
    NoCRLFIff(s);
    if Parse(s).HeadIncomplete? && !NoCRLF(s) {
      var l, fs, part := BeginningFound(s);
      RemainderOf(s, l, fs, part);
    }
    if l, fs, part :| Begins(s, l, fs, part) && StopsShort(part, HeadersOf(map[], fs)) {
      RemainderOf(s, l, fs, part);
    }
  }

  /** The head stops short behind a good request line. */
  ghost predicate HeadStopsShort(s: string) {
    exists l, fs, part :: Begins(s, l, fs, part) && StopsShort(part, HeadersOf(map[], fs))
  }

  /** The call as a whole reads past them exactly when there is no line break, and the line is logged or not
      refused within itself; or when the head stops short. */
  lemma ReadsPastIff(s: string, logsInfo: bool)
    ensures ReadsPast(s, logsInfo) <==> (NoCRLF(s) && (logsInfo || !Refused(s))) || HeadStopsShort(s)
  {
    hide Parse, Refused, FirstCRLF, NoCRLF, Begins, StopsShort, HeadersOf;
    HeadIncompleteIff(s);
    NoCRLFIff(s);
    FirstCRLFIsFirst(s);
  }

  /** So what a caller has to check, with the default log level: a line break is there, and the head does not
      stop short. */
  lemma CallerMustCheck(s: string)
    ensures !ReadsPast(s, true) <==> !NoCRLF(s) && !HeadStopsShort(s)
  {
    hide ReadsPast, NoCRLF, HeadStopsShort;
    ReadsPastIff(s, true);
  }

  lemma RemainderOf(s: string, l: Line, fs: seq<Field>, part: string)
    requires Begins(s, l, fs, part)
    ensures Parse(s).HeadIncomplete? <==> StopsShort(part, HeadersOf(map[], fs))
    ensures Parse(s).BadLength? <==> EndsHead(part) && LengthThrows(HeadersOf(map[], fs))
    ensures Parse(s).BadLength? ==> Parse(s) == BadLength(FromLine(l).(headers := HeadersOf(map[], fs)), part)
    ensures !Parse(s).BadLine? && FirstCRLF(s) < |s|
  {
    hide Parse, ParseHeaders, StopsShort, EndsHead, LengthThrows, HeadersOf, FirstCRLF;
    BeginningRead(s, l, fs, part);
    RemainderRead(part, FromLine(l).(headers := HeadersOf(map[], fs)));
  }

  /** It refuses the request line exactly when that is not a good one within the limit, or, without a line
      break, is refused within the readable bytes. */
  lemma BadLineIff(s: string)
    ensures Parse(s).BadLine?
       <==> if NoCRLF(s) then Refused(s)
            else !exists l :: WellFormed(l) && |Text(l)| <= MAX_REQUEST_LINE + 1 && Text(l) <= s
  {
    hide ParseHeaders, NoCRLF, Refused, FirstCRLF, Text, WellFormed, ScanLine;
    NoCRLFIff(s);
    if !NoCRLF(s) {
      if !Parse(s).BadLine? {
        var l, behind := LineFound(s);
      }
      if l :| WellFormed(l) && |Text(l)| <= MAX_REQUEST_LINE + 1 && Text(l) <= s {
        assert s == Text(l) + s[|Text(l)|..];
        LineRead(l, s[|Text(l)|..]);
        NeverBadLine(s[|Text(l)|..], FromLine(l));
      }
    }
  }

  lemma NeverBadLine(s: string, r: Request)
    ensures !ParseHeaders(s, r).BadLine?
  {
    hide ParseHeaders, NoFieldFirst;
    var fs, part := FieldsFound(s, r);
    RemainderRead(part, r.(headers := HeadersOf(r.headers, fs)));
  }

  /** The end of the head is reached with a content length that does not convert. */
  ghost predicate ThrowsAt(s: string, l: Line, fs: seq<Field>, rest: string) {
    Begins(s, l, fs, rest) && EndsHead(rest) && LengthThrows(HeadersOf(map[], fs))
  }

  /** The call throws exactly then; the end of the head is still in the buffer. */
  lemma ThrowsIff(s: string, r: Request, rest: string)
    ensures Parse(s) == BadLength(r, rest)
       <==> exists l, fs :: ThrowsAt(s, l, fs, rest) && r == FromLine(l).(headers := HeadersOf(map[], fs))
  {
    hide ParseHeaders, Refused, FirstCRLF, Begins, EndsHead, LengthThrows, HeadersOf, ScanLine;
    if Parse(s) == BadLength(r, rest) {
      var l, fs, part := BeginningFound(s);
      RemainderOf(s, l, fs, part);
      assert ThrowsAt(s, l, fs, rest);
    }
    if l, fs :| ThrowsAt(s, l, fs, rest) && r == FromLine(l).(headers := HeadersOf(map[], fs)) {
      RemainderOf(s, l, fs, rest);
    }
  }

  /** Any input the parser gets through the head of begins with a written head, and goes on as that
      message would. */
  lemma HeadFound(s: string) returns (m: Message, rest: string)
    requires Parse(s).Complete? || Parse(s).BodyMissing?
    ensures GoodHead(m) && !LengthThrows(HeadOf(m).headers) && s == HeadText(m) + rest && m.body == ""
    ensures Parse(s) == AfterHead(rest, HeadOf(m))
  {
    hide ParseHeaders, FieldsText, WellFormed, Text, GoodFields, FirstCRLF, HeadersOf, Refused, ScanLine, AfterHead,
      LengthThrows, EndsHead, StopsShort;
    var l, fs, part := BeginningFound(s);
    RemainderOf(s, l, fs, part);
    var end;
    end, rest := EndFound(part, HeadersOf(map[], fs));
    m := Message(l, fs, end, "");
    assert s == HeadText(m) + rest;
    HeadRead(m, rest);
  }

  /** A remainder that does not stop short is an end of the head and what follows. */
  lemma EndFound(part: string, headers: map<string, string>) returns (end: string, rest: string)
    requires NoFieldFirst(part) && !StopsShort(part, headers) && !(EndsHead(part) && LengthThrows(headers))
    ensures GoodEnd(end) && part == end + "\r\n" + rest && !LengthThrows(headers)
  {
    hide FirstCRLF, NoCRLF, LengthThrows;
    NoCRLFIff(part);
    LineHasNone(part);
    end, rest := part[..FirstCRLF(part)], part[FirstCRLF(part) + 2..];
  }

  /** It gets through the head exactly when the bytes begin with a good one whose length converts. */
  lemma GetsThroughHeadIff(s: string)
    ensures Parse(s).Complete? || Parse(s).BodyMissing?
       <==> exists m, rest :: GoodHead(m) && !LengthThrows(HeadOf(m).headers) && s == HeadText(m) + rest
  {
    hide Parse, HeadText, LengthThrows, GoodHead;
    if Parse(s).Complete? || Parse(s).BodyMissing? {
      var m, rest := HeadFound(s);
    }
    if m, rest :| GoodHead(m) && !LengthThrows(HeadOf(m).headers) && s == HeadText(m) + rest {
      HeadRead(m, rest);
      ThroughHead(m.end, rest, HeadOf(m));
    }
  }

  lemma ThroughHead(end: string, rest: string, r: Request)
    requires !LengthThrows(r.headers)
    ensures EndOfHead(end, rest, r).Complete? || EndOfHead(end, rest, r).BodyMissing?
  {
  }

  /** The parser completes a request exactly on what a well-formed message was written as, followed by
      what it leaves. */
  lemma CompletesIff(s: string, r: Request, rest: string)
    ensures Parse(s) == Complete(r, rest)
       <==> exists m :: GoodMessage(m) && s == Print(m) + rest && r == RequestOf(m)
  {
    hide Parse, Print, RequestOf, GoodMessage;
    if Parse(s) == Complete(r, rest) {
      var m := MessageFound(s, r, rest);
    }
    if m :| GoodMessage(m) && s == Print(m) + rest && r == RequestOf(m) {
      ParseInvertsPrint(m, rest);
    }
  }

  lemma MessageFound(s: string, r: Request, rest: string) returns (m: Message)
    requires Parse(s) == Complete(r, rest)
    ensures GoodMessage(m) && s == Print(m) + rest && r == RequestOf(m)
  {
    hide Parse, HeadersOf, Stoi, WellFormed, GoodFields, GoodEnd, Text, FieldsText;
    var head, more := HeadFound(s);
    var body := more[..|more| - |rest|];
    m := head.(body := body);
    assert more == body + rest;
  }

  // ----- bytes that stop early -----

  lemma CutLine(line: string, k: nat)
    requires NoCRLF(line) && k <= |line| + 1
    ensures NoCRLF((line + "\r\n")[..k])
  {
    forall i | 0 <= i < k ensures !CRLFAt((line + "\r\n")[..k], i) {
      assert i + 2 <= |line| ==> !CRLFAt(line, i);
    }
  }

  /** Every content length among the fields converts. */
  ghost predicate LengthsConvert(fs: seq<Field>) {
    forall i :: 0 <= i < |fs| && fs[i].name == CONTENT_LENGTH ==> fs[i].value == "" || Stoi(fs[i].value).Some?
  }

  lemma StoppedRead(s: string, r: Request)
    requires NoCRLF(s)
    ensures ParseHeaders(s, r).HeadIncomplete? || (LengthThrows(r.headers) && ParseHeaders(s, r).BadLength?)
  {
    hide FirstCRLF, NoCRLF, LengthThrows;
    NoCRLFIff(s);
  }

  lemma {:induction false} CutFields(fs: seq<Field>, end: string, k: nat, r: Request)
    requires GoodFields(fs) && GoodEnd(end)
    requires k < |FieldsText(fs) + end + "\r\n"|
    ensures var o := ParseHeaders((FieldsText(fs) + end + "\r\n")[..k], r);
      && (o.HeadIncomplete? || o.BadLength?)
      && (LengthsConvert(fs) && !LengthThrows(r.headers) ==> o.HeadIncomplete?)
    decreases |fs|
  {
    hide FirstCRLF, NoCRLF, IndexOf, TrimLeft, TrimRight, FieldLine, ParseHeaders, Stoi;
    if fs == [] {
      CutLine(end, k);
      assert FieldsText(fs) + end + "\r\n" == end + "\r\n";
      StoppedRead((end + "\r\n")[..k], r);
    } else {
      var line, more := FieldLine(fs[0]), FieldsText(fs[1..]) + end + "\r\n";
      assert FieldsText(fs) + end + "\r\n" == line + "\r\n" + more;
      if k < |line| + 2 {
        CutLine(line, k);
        assert (line + "\r\n" + more)[..k] == (line + "\r\n")[..k];
        StoppedRead((line + "\r\n")[..k], r);
      } else {
        var j := k - |line| - 2;
        assert (line + "\r\n" + more)[..k] == line + "\r\n" + more[..j];
        FieldRead(fs[0], more[..j], r);
        CutFields(fs[1..], end, j, r.(headers := r.headers[fs[0].name := fs[0].value]));
      }
    }
  }

  /** No beginning of a request line is refused. */
  lemma CutLineNotRefused(l: Line, k: nat)
    requires WellFormed(l) && |Text(l)| <= MAX_REQUEST_LINE + 1 && k < |Text(l)|
    ensures !Refused(Text(l)[..k])
  {
    hide Scan, Text, WellFormed;
    ScanText(l);
    assert Text(l) == Text(l)[..k] + Text(l)[k..];
    ScanAppend(START, Text(l)[..k], Text(l)[k..]);
    if Scan(START, Text(l)[..k]).state == Failed {
      FailedStays(Scan(START, Text(l)[..k]), Text(l)[k..]);
    }
  }

  /** A head that stops anywhere before its end is beyond this parser: it cannot be called on a part of
      one and again on the rest.  At best it throws before it notices, and only on a bad length. */
  lemma CutHead(m: Message, k: nat)
    requires GoodHead(m) && k < |HeadText(m)|
    ensures var o := Parse(HeadText(m)[..k]);
      && (o.HeadIncomplete? || o.BadLength?)
      && (LengthsConvert(m.fields) ==> o.HeadIncomplete?)
  {
    hide ParseHeaders, FieldsText, WellFormed, Text, Stem, NoCRLF, GoodFields, GoodEnd, FirstCRLF, ScanLine, Refused,
      LengthsConvert;
    var line, more := Text(m.line), FieldsText(m.fields) + m.end + "\r\n";
    assert HeadText(m) == line + more;
    if k < |line| {
      StemHasNoCRLF(m.line);
      CutLine(Stem(m.line), k);
      assert HeadText(m)[..k] == line[..k];
      NoCRLFIff(line[..k]);
      CutLineNotRefused(m.line, k);
    } else {
      assert HeadText(m)[..k] == line + more[..k - |line|];
      LineRead(m.line, more[..k - |line|]);
      CutFields(m.fields, m.end, k - |line|, FromLine(m.line));
    }
  }

  /** A body that stops early leaves the parser waiting, with the head's fields in place. */
  lemma CutBody(m: Message, k: nat)
    requires GoodMessage(m) && |HeadText(m)| <= k < |Print(m)|
    ensures Parse(Print(m)[..k]) == BodyMissing(HeadOf(m), m.body[..k - |HeadText(m)|])
  {
    hide Parse, HeadText, HeadersOf, Stoi, WellFormed, GoodFields, GoodEnd, Text;
    var part := m.body[..k - |HeadText(m)|];
    assert Print(m)[..k] == HeadText(m) + part;
    HeadRead(m, part);
    assert GoodBody(HeadOf(m).headers, m.body);
  }

  // ----- fields and lengths -----

  ghost predicate DistinctNames(fs: seq<Field>) {
    forall i, j :: 0 <= i < j < |fs| ==> fs[i].name != fs[j].name
  }

  lemma {:induction false} OtherHeadersStay(headers: map<string, string>, fs: seq<Field>, name: string)
    requires forall i :: 0 <= i < |fs| ==> fs[i].name != name
    ensures name in HeadersOf(headers, fs) <==> name in headers
    ensures name in headers ==> HeadersOf(headers, fs)[name] == headers[name]
    decreases |fs|
  {
    if fs != [] {
      OtherHeadersStay(headers[fs[0].name := fs[0].value], fs[1..], name);
    }
  }

  /** Of several header lines with one name the last one counts. */
  lemma {:induction false} LastFieldCounts(headers: map<string, string>, fs: seq<Field>, i: nat)
    requires i < |fs| && forall j :: i < j < |fs| ==> fs[j].name != fs[i].name
    ensures fs[i].name in HeadersOf(headers, fs) && HeadersOf(headers, fs)[fs[i].name] == fs[i].value
    decreases |fs|
  {
    var more := headers[fs[0].name := fs[0].value];
    if i == 0 {
      OtherHeadersStay(more, fs[1..], fs[0].name);
    } else {
      LastFieldCounts(more, fs[1..], i - 1);
    }
  }

  /** With names of their own the fields are exactly the headers. */
  lemma {:induction false} HeadersAreFields(headers: map<string, string>, fs: seq<Field>)
    requires DistinctNames(fs)
    ensures forall i :: 0 <= i < |fs| ==> fs[i].name in HeadersOf(headers, fs)
                                          && HeadersOf(headers, fs)[fs[i].name] == fs[i].value
    ensures forall name :: name in HeadersOf(headers, fs) ==>
              name in headers || exists i :: 0 <= i < |fs| && fs[i].name == name
    decreases |fs|
  {
    if fs != [] {
      var more := headers[fs[0].name := fs[0].value];
      HeadersAreFields(more, fs[1..]);
      OtherHeadersStay(more, fs[1..], fs[0].name);
      forall i | 0 <= i < |fs| ensures fs[i].name in HeadersOf(headers, fs)
                                       && HeadersOf(headers, fs)[fs[i].name] == fs[i].value {
        assert i > 0 ==> fs[i] == fs[1..][i - 1];
      }
      forall name | name in HeadersOf(headers, fs)
        ensures name in headers || exists i :: 0 <= i < |fs| && fs[i].name == name
      {
        if name !in headers && name != fs[0].name {
          var i :| 0 <= i < |fs[1..]| && fs[1..][i].name == name;
          assert fs[i + 1].name == name;
        }
      }
    }
  }

  ghost predicate AllDigits(s: string) {
    forall i :: 0 <= i < |s| ==> IsDigit(s[i])
  }

  /** The digits of a content length are read in base ten, as the integer printer writes them. */
  lemma {:induction false} DecimalIsNumeral(s: string)
    requires AllDigits(s)
    ensures Decimal(s) == IntPrinters.NumeralValue(s, 10)
  {
    if s != "" {
      DecimalIsNumeral(s[..|s| - 1]);
      assert IsDigit(s[|s| - 1]);
    }
  }

  lemma {:induction false} DigitsAreDigits(n: nat)
    ensures AllDigits(IntPrinters.Digits(n, 10)) && IntPrinters.Digits(n, 10) != ""
  {
    hide IntPrinters.Quot, IntPrinters.Rem;
    var d := IntPrinters.Rem(n, 10);
    assert IsDigit(IntPrinters.DIGITS_HEX[d]);
    if n >= 10 {
      DigitsAreDigits(IntPrinters.Quot(n, 10));
    }
  }

  lemma {:induction false} DigitsLead(digits: string, rest: string)
    requires AllDigits(digits) && (rest != "" ==> !IsDigit(rest[0]))
    ensures LeadingDigits(digits + rest) == |digits|
  {
    if digits == "" {
      assert digits + rest == rest;
    } else {
      assert (digits + rest)[1..] == digits[1..] + rest;
      DigitsLead(digits[1..], rest);
    }
  }

  /** White space, then perhaps a sign, then a number in decimal, then anything that does not go on with a
      digit; and `n` is the number. */
  ghost predicate Reads(s: string, lead: string, sign: string, digits: string, rest: string, n: int) {
    && s == lead + sign + digits + rest
    && AllSpace(lead) && sign in {"", "+", "-"} && digits != "" && AllDigits(digits)
    && (rest != "" ==> !IsDigit(rest[0]))
    && n == if sign == "-" then -IntPrinters.NumeralValue(digits, 10) else IntPrinters.NumeralValue(digits, 10)
  }

  lemma StoiReads(s: string, lead: string, sign: string, digits: string, rest: string, n: int)
    requires Reads(s, lead, sign, digits, rest, n)
    ensures Stoi(s) == if INT_MIN <= n <= INT_MAX then Some(n) else None
  {
    hide Decimal, LeadingDigits, TrimLeft, AllSpace, AllDigits, IntPrinters.NumeralValue;
    var t := sign + (digits + rest);
    FirstDigit(digits, rest);
    assert s == lead + t;
    assert t[0] == if sign == "" then digits[0] else sign[0];
    TrimLeftPadded(lead, t);
    assert (if sign == "" then t else t[1..]) == digits + rest;
    DigitsLead(digits, rest);
    DecimalIsNumeral(digits);
    assert (digits + rest)[..|digits|] == digits;
  }

  lemma FirstDigit(digits: string, rest: string)
    requires digits != "" && AllDigits(digits)
    ensures (digits + rest)[0] == digits[0] && IsDigit(digits[0])
  {
  }

  lemma StoiFound(s: string) returns (lead: string, sign: string, digits: string, rest: string, n: int)
    requires Stoi(s).Some?
    ensures Reads(s, lead, sign, digits, rest, n)
  {
    hide Decimal, LeadingDigits, TrimLeft, AllSpace, IntPrinters.NumeralValue;
    var t := TrimLeft(s);
    lead := TrimLeftParts(s);
    sign := if t != "" && t[0] in {'-', '+'} then [t[0]] else "";
    var u := t[|sign|..];
    var k := LeadingDigits(u);
    LeadingDigitsStop(u);
    digits, rest := u[..k], u[k..];
    assert t == sign + u;
    Halves(u, k);
    assert s == lead + sign + digits + rest by {
      Associates(lead, sign, u);
      Associates(lead + sign, digits, rest);
    }
    n := if sign == "-" then -IntPrinters.NumeralValue(digits, 10) else IntPrinters.NumeralValue(digits, 10);
  }

  lemma Halves(s: string, k: nat)
    requires k <= |s|
    ensures s == s[..k] + s[k..]
  {
  }

  lemma {:induction false} LeadingDigitsStop(s: string)
    ensures LeadingDigits(s) < |s| ==> !IsDigit(s[LeadingDigits(s)])
  {
    if s != "" && IsDigit(s[0]) {
      LeadingDigitsStop(s[1..]);
    }
  }

  /** The conversion gives a number exactly when the text begins with that number in decimal, signed or not and
      after any white space, and an int can hold it. */
  lemma StoiIff(s: string, n: int)
    ensures Stoi(s) == Some(n)
       <==> INT_MIN <= n <= INT_MAX && exists lead, sign, digits, rest :: Reads(s, lead, sign, digits, rest, n)
  {
    hide Stoi, Reads;
    if Stoi(s) == Some(n) {
      var lead, sign, digits, rest, m := StoiFound(s);
      StoiReads(s, lead, sign, digits, rest, m);
    }
    if lead, sign, digits, rest :| Reads(s, lead, sign, digits, rest, n) {
      StoiReads(s, lead, sign, digits, rest, n);
    }
  }

  /** A number as the integer printer writes it reads as itself, up to the largest int. */
  lemma StoiOfDigits(n: nat)
    ensures Stoi(IntPrinters.Digits(n, 10)) == if n <= INT_MAX then Some(n as int) else None
  {
    hide Stoi, AllDigits;
    var s := IntPrinters.Digits(n, 10);
    DigitsAreDigits(n);
    IntPrinters.DigitsReadBack(n, 10);
    assert "" + "" + s + "" == s;
    StoiReads(s, "", "", s, "", n);
  }

  /** What a sender does: one Content-Length field, with the body's length in decimal, for a body no longer than
      an int can say; or no such field and no body. */
  ghost predicate SaysLength(m: Message) {
    if exists i :: 0 <= i < |m.fields| && m.fields[i].name == CONTENT_LENGTH then
      && |m.body| <= INT_MAX
      && forall i :: 0 <= i < |m.fields| && m.fields[i].name == CONTENT_LENGTH ==>
           m.fields[i].value == IntPrinters.Digits(|m.body|, 10)
    else m.body == ""
  }

  lemma SentMessagesAreGood(m: Message)
    requires GoodHead(m) && DistinctNames(m.fields) && SaysLength(m)
    ensures GoodMessage(m)
  {
    hide WellFormed, Text, GoodFields, GoodEnd, Stoi, HeadersOf, IntPrinters.Digits;
    HeadersAreFields(map[], m.fields);
    StoiOfDigits(|m.body|);
    DigitsAreDigits(|m.body|);
  }

  /** So what such a sender writes, followed by any bytes, is parsed into what was sent, the body being as many
      bytes as the length in decimal says, and those bytes are left. */
  lemma SentIsParsed(m: Message, tail: string)
    requires GoodHead(m) && DistinctNames(m.fields) && SaysLength(m)
    ensures var out := Parse(Print(m) + tail);
      && out.Complete? && out.rest == tail && out.request.body == m.body
      && (out.request.verb, out.request.path, out.request.version) == (m.line.verb, m.line.path, m.line.version)
      && out.request.query == (if m.line.query.Some? then m.line.query.value else "")
      && (forall i :: 0 <= i < |m.fields| ==>
            m.fields[i].name in out.request.headers && out.request.headers[m.fields[i].name] == m.fields[i].value)
  {
    hide WellFormed, Text, GoodFields, GoodEnd, HeadersOf, Parse, Print, SaysLength, GoodMessage;
    SentMessagesAreGood(m);
    ParseInvertsPrint(m, tail);
    HeadersAreFields(map[], m.fields);
  }

  /** A negative content length is taken for one of at least 2^64 - 2^31 bytes: no body is ever long enough. */
  lemma NegativeLengthWaits(m: Message, n: int, rest: string)
    requires GoodHead(m) && n < 0 && Stoi(Header(HeadersOf(map[], m.fields), CONTENT_LENGTH)) == Some(n)
    requires |rest| < 0xffff_ffff_8000_0000 && m.end == ""
    ensures Parse(HeadText(m) + rest) == BodyMissing(HeadOf(m), rest)
  {
    hide WellFormed, Text, GoodFields, GoodEnd, HeadersOf, Parse, HeadText;
    HeadRead(m, rest);
  }

  /** What the simplest request lines look like. */
  lemma WrittenLine(verb: Method, path: string, version: Version)
    requires verb != Invalid && version != Unknown
    ensures Text(Line(verb, 1, path, None, 1, version))
         == (match verb
             case Get => "GET"
             case Post => "POST"
             case Put => "PUT"
             case Delete => "DELETE"
             case Head => "HEAD"
             case Invalid => "")
            + " " + path + " " + (if version == Http11 then "HTTP/1.1" else "HTTP/1.0") + "\r\n"
  {
    assert Spaces(1) == " ";
    var start := NameOf(verb) + " " + path;
    assert start + "" == start;
  }
}
