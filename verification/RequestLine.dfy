/** The request line: the scanner's steps on values, the grammar it is meant for, and the proof that the
    scanner accepts exactly that grammar. */
module RequestLines {
  import opened Basics

  const MAX_REQUEST_LINE := 8192

  datatype Method = Invalid | Get | Post | Delete | Put | Head

  datatype Version = Unknown | Http10 | Http11

  function MethodOf(name: string): Method {
    if name == "GET" then Get
    else if name == "POST" then Post
    else if name == "DELETE" then Delete
    else if name == "PUT" then Put
    else if name == "HEAD" then Head
    else Invalid
  }

  function NameOf(m: Method): string {
    match m
    case Get => "GET"
    case Post => "POST"
    case Delete => "DELETE"
    case Put => "PUT"
    case Head => "HEAD"
    case Invalid => "UNKNOWN"
  }

  function VersionOf(text: string): Version {
    if text == "HTTP/1.1" then Http11 else if text == "HTTP/1.0" then Http10 else Unknown
  }

  function TextOf(v: Version): string {
    match v
    case Http11 => "HTTP/1.1"
    case Http10 => "HTTP/1.0"
    case Unknown => ""
  }

  // ----- the grammar -----

  /** A request line as it can be written: any number of spaces, but at least one, in each gap. */
  datatype Line = Line(verb: Method, gap: nat, path: string, query: Option<string>, gap2: nat, version: Version)

  function Spaces(n: nat): string {
    seq(n, _ => ' ')
  }

  ghost predicate Free(s: string, stop: set<char>) {
    forall i :: 0 <= i < |s| ==> s[i] !in stop
  }

  ghost predicate WellFormed(l: Line) {
    && l.verb != Invalid && l.version != Unknown
    && l.gap > 0 && l.gap2 > 0
    && l.path != "" && l.path[0] == '/' && Free(l.path, {'?', ' ', '\r', '\n'})
    && (l.query.Some? ==> Free(l.query.value, {' ', '\r', '\n'}))
  }

  function QueryText(query: Option<string>): string {
    if query.Some? then "?" + query.value else ""
  }

  function Text(l: Line): string {
    NameOf(l.verb) + Spaces(l.gap) + l.path + QueryText(l.query) + Spaces(l.gap2) + TextOf(l.version) + "\r\n"
  }

  // ----- the scanner -----

  datatype State = InMethod | SpacesBeforePath | InPath | InQuery | SpacesBeforeVersion | InVersion | AtCR | Done | Failed

  /** The scanner between two characters: its state, the token it is in, and what it has found; the gaps
      and whether there was a '?' are kept for the proof only. */
  datatype Scanner = Scanner(state: State, token: string, line: Line)

  const START := Scanner(InMethod, "", Line(Invalid, 0, "", None, 0, Unknown))

  function Next(s: Scanner, ch: char): Scanner {
    match s.state
    case InMethod =>
      if ch == ' ' then
        if s.token == "" || MethodOf(s.token) == Invalid then s.(state := Failed)
        else Scanner(SpacesBeforePath, "", s.line.(verb := MethodOf(s.token), gap := 1))
      else s.(token := s.token + [ch])
    case SpacesBeforePath =>
      if ch == ' ' then s.(line := s.line.(gap := s.line.gap + 1))
      else if ch != '/' then s.(state := Failed)
      else s.(state := InPath, token := [ch])
    case InPath =>
      if ch == '?' then Scanner(InQuery, "", s.line.(path := s.token))
      else if ch == ' ' then Scanner(SpacesBeforeVersion, "", s.line.(path := s.token, gap2 := 1))
      else if ch == '\r' || ch == '\n' then s.(state := Failed)
      else s.(token := s.token + [ch])
    case InQuery =>
      if ch == ' ' then Scanner(SpacesBeforeVersion, "", s.line.(query := Some(s.token), gap2 := 1))
      else if ch == '\r' || ch == '\n' then s.(state := Failed)
      else s.(token := s.token + [ch])
    case SpacesBeforeVersion =>
      if ch == ' ' then s.(line := s.line.(gap2 := s.line.gap2 + 1))
      else if ch != 'H' then s.(state := Failed)
      else s.(state := InVersion, token := [ch])
    case InVersion =>
      if ch == '\r' then
        if VersionOf(s.token) == Unknown then s.(state := Failed)
        else Scanner(AtCR, "", s.line.(version := VersionOf(s.token)))
      else s.(token := s.token + [ch])
    case AtCR =>
      s.(state := if ch == '\n' then Done else Failed)
    case Done => s
    case Failed => s
  }

  function Scan(s: Scanner, text: string): Scanner {
    if text == "" then s else Next(Scan(s, text[..|text| - 1]), text[|text| - 1])
  }

  /** What parseRequestLine makes of the characters: the scanner gives up on the one after the limit. */
  function ScanLine(text: string): Option<Line> {
    var seen := if |text| > MAX_REQUEST_LINE + 1 then text[..MAX_REQUEST_LINE + 1] else text;
    var s := Scan(START, seen);
    if s.state == Done then Some(s.line) else None
  }

  /** The scanner refuses before it comes to the end of the text, whatever may stand behind it. */
  predicate Refused(text: string) {
    |text| > MAX_REQUEST_LINE || Scan(START, text).state == Failed
  }

  lemma {:induction false} ScanAppend(s: Scanner, a: string, b: string)
    ensures Scan(s, a + b) == Scan(Scan(s, a), b)
  {
    if b == "" {
      assert a + b == a;
    } else {
      ScanAppend(s, a, b[..|b| - 1]);
      assert (a + b)[..|a + b| - 1] == a + b[..|b| - 1];
    }
  }

  // ----- soundness: what the scanner has read is what it has found -----

  function TextSoFar(s: Scanner): string {
    var l := s.line;
    match s.state
    case InMethod => s.token
    case SpacesBeforePath => NameOf(l.verb) + Spaces(l.gap)
    case InPath => NameOf(l.verb) + Spaces(l.gap) + s.token
    case InQuery => NameOf(l.verb) + Spaces(l.gap) + l.path + "?" + s.token
    case SpacesBeforeVersion => NameOf(l.verb) + Spaces(l.gap) + l.path + QueryText(l.query) + Spaces(l.gap2)
    case InVersion => NameOf(l.verb) + Spaces(l.gap) + l.path + QueryText(l.query) + Spaces(l.gap2) + s.token
    case AtCR => NameOf(l.verb) + Spaces(l.gap) + l.path + QueryText(l.query) + Spaces(l.gap2) + TextOf(l.version) + "\r"
    case Done => Text(l)
    case Failed => ""
  }

  ghost predicate GoodPath(path: string) {
    path != "" && path[0] == '/' && Free(path, {'?', ' ', '\r', '\n'})
  }

  /** How far the line is well formed in each state. */
  ghost predicate Good(s: Scanner) {
    var l := s.line;
    match s.state
    case InMethod => l == START.line
    case SpacesBeforePath => l.verb != Invalid && l.gap > 0 && l.query == None && l.version == Unknown
    case InPath => l.verb != Invalid && l.gap > 0 && l.query == None && l.version == Unknown && GoodPath(s.token)
    case InQuery =>
      l.verb != Invalid && l.gap > 0 && l.query == None && l.version == Unknown && GoodPath(l.path)
      && Free(s.token, {' ', '\r', '\n'})
    case SpacesBeforeVersion => l.version == Unknown && WellFormed(l.(version := Http10))
    case InVersion => l.version == Unknown && WellFormed(l.(version := Http10))
    case AtCR => WellFormed(l)
    case Done => WellFormed(l)
    case Failed => true
  }

  lemma MoreSpaces(n: nat)
    ensures Spaces(n) + [' '] == Spaces(n + 1)
    ensures [' '] + Spaces(n) == Spaces(n + 1)
  {
  }

  lemma NamesRoundTrip(name: string, v: string)
    ensures MethodOf(name) != Invalid ==> NameOf(MethodOf(name)) == name
    ensures VersionOf(v) != Unknown ==> TextOf(VersionOf(v)) == v
  {
  }

  lemma NextGood(s: Scanner, ch: char)
    requires Good(s) && s.state != Done && Next(s, ch).state != Failed
    ensures Good(Next(s, ch))
  {
    hide MethodOf, VersionOf;
    if s.state == InPath || s.state == InQuery {
      assert forall i :: 0 <= i < |s.token| ==> (s.token + [ch])[i] == s.token[i];
    }
  }

  lemma NextText(s: Scanner, ch: char)
    requires Good(s) && s.state != Done && Next(s, ch).state != Failed
    ensures TextSoFar(Next(s, ch)) == TextSoFar(s) + [ch]
  {
    hide MethodOf, VersionOf, NameOf, TextOf, Spaces, WellFormed, GoodPath, Free, QueryText;
    MoreSpaces(0);
    MoreSpaces(s.line.gap);
    MoreSpaces(s.line.gap2);
    NamesRoundTrip(s.token, s.token);
    NoSpaces();
    GoodKeepsQuery(s);
    QueryTexts(s.token);
  }

  lemma QueryTexts(q: string)
    ensures QueryText(None) == "" && QueryText(Some(q)) == "?" + q
  {
  }

  lemma GoodKeepsQuery(s: Scanner)
    requires Good(s)
    ensures s.state == InPath || s.state == InQuery ==> s.line.query == None
  {
  }

  lemma NoSpaces()
    ensures Spaces(0) == ""
  {
  }

  lemma {:induction false} ScanSound(text: string) returns (k: nat)
    requires Scan(START, text).state != Failed
    ensures k <= |text| && text[..k] == TextSoFar(Scan(START, text))
    ensures Good(Scan(START, text))
    ensures Scan(START, text).state != Done ==> k == |text|
  {
    hide TextSoFar, Good;
    if text == "" {
      StartSound();
      k := 0;
    } else {
      var before := text[..|text| - 1];
      k := ScanSound(before);
      var s := Scan(START, before);
      if s.state != Done {
        NextGood(s, text[|text| - 1]);
        NextText(s, text[|text| - 1]);
        k := |text|;
        assert text == before + [text[|text| - 1]];
      }
    }
  }

  lemma StartSound()
    ensures TextSoFar(START) == "" && Good(START)
  {
  }

  // ----- completeness: a written line is scanned to its end -----

  ghost predicate Plain(state: State, ch: char) {
    match state
    case InMethod => ch != ' '
    case InPath => ch !in {'?', ' ', '\r', '\n'}
    case InQuery => ch !in {' ', '\r', '\n'}
    case InVersion => ch != '\r'
    case _ => false
  }

  lemma {:induction false} TokenRead(s: Scanner, w: string)
    requires forall i :: 0 <= i < |w| ==> Plain(s.state, w[i])
    ensures Scan(s, w) == s.(token := s.token + w)
  {
    if w == "" {
      assert s.token + w == s.token;
    } else {
      TokenRead(s, w[..|w| - 1]);
      assert s.token + w == s.token + w[..|w| - 1] + [w[|w| - 1]];
    }
  }

  lemma {:induction false} SpacesRead(s: Scanner, n: nat)
    requires s.state == SpacesBeforePath || s.state == SpacesBeforeVersion
    ensures Scan(s, Spaces(n)) == s.(line := if s.state == SpacesBeforePath then s.line.(gap := s.line.gap + n)
                                             else s.line.(gap2 := s.line.gap2 + n))
  {
    if n > 0 {
      SpacesRead(s, n - 1);
      assert Spaces(n)[..n - 1] == Spaces(n - 1);
    }
  }

  lemma OneRead(s: Scanner, ch: char)
    ensures Scan(s, [ch]) == Next(s, ch)
  {
    assert [ch][..0] == "";
    assert Scan(s, "") == s;
  }

  lemma NameFacts(verb: Method)
    requires verb != Invalid
    ensures NameOf(verb) != "" && MethodOf(NameOf(verb)) == verb
    ensures forall i :: 0 <= i < |NameOf(verb)| ==> Plain(InMethod, NameOf(verb)[i])
  {
  }

  /** The space that ends a token, and those that follow it. */
  lemma GapRead(s: Scanner, gap: nat)
    requires gap > 0
    requires Next(s, ' ').state == SpacesBeforePath || Next(s, ' ').state == SpacesBeforeVersion
    ensures Scan(s, Spaces(gap)) == Scan(Next(s, ' '), Spaces(gap - 1))
  {
    hide Next, Scan, Spaces;
    OneRead(s, ' ');
    MoreSpaces(gap - 1);
    ScanAppend(s, [' '], Spaces(gap - 1));
  }

  lemma MethodRead(verb: Method, gap: nat)
    requires verb != Invalid && gap > 0
    ensures Scan(START, NameOf(verb) + Spaces(gap)) == Scanner(SpacesBeforePath, "", START.line.(verb := verb, gap := gap))
  {
    hide NameOf, MethodOf, Scan, Spaces;
    var name := NameOf(verb);
    NameFacts(verb);
    TokenRead(START, name);
    assert "" + name == name;
    var s := START.(token := name);
    ScanAppend(START, name, Spaces(gap));
    GapRead(s, gap);
    SpacesRead(Next(s, ' '), gap - 1);
  }

  /** A token that begins with the character that opens its state. */
  lemma OpenedRead(s: Scanner, open: char, w: string)
    requires w != "" && w[0] == open && Next(s, open).token == [open]
    requires forall i :: 1 <= i < |w| ==> Plain(Next(s, open).state, w[i])
    ensures Scan(s, w) == Next(s, open).(token := w)
  {
    hide Next, Scan, Plain;
    OneRead(s, open);
    ScanAppend(s, [open], w[1..]);
    TokenRead(Next(s, open), w[1..]);
    assert [open] + w[1..] == w;
  }

  lemma PathRead(s: Scanner, path: string)
    requires s.state == SpacesBeforePath && GoodPath(path)
    ensures Scan(s, path) == s.(state := InPath, token := path)
  {
    hide Scan;
    OpenedRead(s, '/', path);
  }

  /** A query is read up to its end; without one the scanner stays in the path. */
  lemma QueryTokenRead(s: Scanner, query: Option<string>)
    requires s.state == InPath
    requires query.Some? ==> Free(query.value, {' ', '\r', '\n'})
    ensures Scan(s, QueryText(query))
         == if query.Some? then Scanner(InQuery, query.value, s.line.(path := s.token)) else s
  {
    if query.Some? {
      OneRead(s, '?');
      ScanAppend(s, ['?'], query.value);
      TokenRead(Next(s, '?'), query.value);
      assert "" + query.value == query.value;
    }
  }

  lemma QueryRead(s: Scanner, query: Option<string>, gap2: nat)
    requires s.state == InPath && s.line.query == None && gap2 > 0
    requires query.Some? ==> Free(query.value, {' ', '\r', '\n'})
    ensures Scan(s, QueryText(query) + Spaces(gap2))
         == Scanner(SpacesBeforeVersion, "", s.line.(path := s.token, query := query, gap2 := gap2))
  {
    hide Scan, Spaces, QueryText;
    QueryTokenRead(s, query);
    var t := Scan(s, QueryText(query));
    ScanAppend(s, QueryText(query), Spaces(gap2));
    GapRead(t, gap2);
    SpacesRead(Next(t, ' '), gap2 - 1);
  }

  lemma VersionFacts(version: Version)
    requires version != Unknown
    ensures var text := TextOf(version);
      text != "" && text[0] == 'H' && VersionOf(text) == version && forall i :: 1 <= i < |text| ==> Plain(InVersion, text[i])
  {
  }

  lemma LineEndRead(s: Scanner)
    requires s.state == InVersion && VersionOf(s.token) != Unknown
    ensures Scan(s, "\r\n") == Scanner(Done, "", s.line.(version := VersionOf(s.token)))
  {
    hide Scan, VersionOf;
    OneRead(s, '\r');
    OneRead(Next(s, '\r'), '\n');
    ScanAppend(s, ['\r'], ['\n']);
    assert ['\r'] + ['\n'] == "\r\n";
  }

  lemma VersionRead(s: Scanner, version: Version)
    requires s.state == SpacesBeforeVersion && version != Unknown
    ensures Scan(s, TextOf(version) + "\r\n") == Scanner(Done, "", s.line.(version := version))
  {
    hide Scan, TextOf, VersionOf;
    var text := TextOf(version);
    VersionFacts(version);
    OpenedRead(s, 'H', text);
    LineEndRead(s.(state := InVersion, token := text));
    ScanAppend(s, text, "\r\n");
  }

  lemma ScanText(l: Line)
    requires WellFormed(l)
    ensures Scan(START, Text(l)) == Scanner(Done, "", l)
  {
    hide Scan, NameOf, TextOf, QueryText, Spaces, Next;
    var a, b, c := NameOf(l.verb) + Spaces(l.gap), QueryText(l.query) + Spaces(l.gap2), TextOf(l.version) + "\r\n";
    MethodRead(l.verb, l.gap);
    var s := Scan(START, a);
    PathRead(s, l.path);
    ScanAppend(START, a, l.path);
    QueryRead(Scan(s, l.path), l.query, l.gap2);
    ScanAppend(START, a + l.path, b);
    VersionRead(Scan(START, a + l.path + b), l.version);
    ScanAppend(START, a + l.path + b, c);
    assert Text(l) == a + l.path + b + c;
  }

  lemma {:induction false} DoneStays(s: Scanner, more: string)
    requires s.state == Done
    ensures Scan(s, more) == s
  {
    if more != "" {
      DoneStays(s, more[..|more| - 1]);
    }
  }

  lemma {:induction false} FailedStays(s: Scanner, more: string)
    requires s.state == Failed
    ensures Scan(s, more) == s
  {
    if more != "" {
      FailedStays(s, more[..|more| - 1]);
    }
  }

  /** The scanner accepts exactly the texts that begin with a well-formed request line within the limit,
      and finds the parts that line was written from. */
  lemma AcceptsIff(text: string, l: Line)
    ensures ScanLine(text) == Some(l)
       <==> WellFormed(l) && Text(l) <= text && |Text(l)| <= MAX_REQUEST_LINE + 1
  {
    hide Scan, Next, Text, WellFormed;
    var seen := if |text| > MAX_REQUEST_LINE + 1 then text[..MAX_REQUEST_LINE + 1] else text;
    if ScanLine(text) == Some(l) {
      var k := ScanSound(seen);
      assert Text(l) == seen[..k];
    }
    if WellFormed(l) && Text(l) <= text && |Text(l)| <= MAX_REQUEST_LINE + 1 {
      var rest := seen[|Text(l)|..];
      assert seen == Text(l) + rest;
      ScanText(l);
      ScanAppend(START, Text(l), rest);
      DoneStays(Scanner(Done, "", l), rest);
    }
  }

  /** So no text has two readings. */
  lemma ReadingUnique(text: string, l: Line, m: Line)
    requires WellFormed(l) && WellFormed(m) && Text(l) <= text && Text(m) <= text
    ensures l == m
  {
    hide Scan, Next, Text, WellFormed;
    var a, b := text[|Text(l)|..], text[|Text(m)|..];
    ScanText(l);
    ScanText(m);
    ScanAppend(START, Text(l), a);
    ScanAppend(START, Text(m), b);
    DoneStays(Scanner(Done, "", l), a);
    DoneStays(Scanner(Done, "", m), b);
    assert text == Text(l) + a == Text(m) + b;
  }
}
