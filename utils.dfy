/**
 * The utility functions of the shell task pool: a run of spaces, the
 * `HH:MM:SS` rendering of the time between two dates, and the tokenizer that
 * turns a job's command line into the argument vector of its process.
 */
module Utils {
  import opened JavaLang

  // ---------------------------------------------------------------------
  // getSpace

  /** `getSpace(nbSpace)`: a string of `nbSpace` spaces, empty when `nbSpace` is not positive. */
  method GetSpace(nbSpace: int) returns (r: string)
    ensures |r| == if nbSpace <= 0 then 0 else nbSpace
    ensures forall k :: 0 <= k < |r| ==> r[k] == ' '
  {
    r := "";
    if nbSpace <= 0 {
      return;
    }
    var i := 0;
    while i < nbSpace
      invariant 0 <= i <= nbSpace
      invariant |r| == i
      invariant forall k :: 0 <= k < |r| ==> r[k] == ' '
    {
      r := r + " ";
      i := i + 1;
    }
  }

  // ---------------------------------------------------------------------
  // buildDurationFromDates

  const SecondInMilli: int := 1000
  const SecondsInHour: int := 3600
  const SecondsInMinute: int := 60

  /** Hours, minutes and seconds of a duration, as the three `%02d` fields print them. */
  datatype Hms = Hms(hours: int, minutes: int, seconds: int)

  /**
   * The fields `tsTime / 3600`, `(tsTime % 3600) / 60` and `tsTime % 60`,
   * with Java's truncating operators. They recompose the duration; for a
   * non-negative duration minutes and seconds lie in [0, 59], and for a
   * negative one every field is zero or negative.
   */
  function SplitSeconds(tsTime: int): (f: Hms)
    ensures f.hours * 3600 + f.minutes * 60 + f.seconds == tsTime
    ensures tsTime >= 0 ==> f.hours >= 0 && 0 <= f.minutes <= 59 && 0 <= f.seconds <= 59
    ensures tsTime <= 0 ==> f.hours <= 0 && -59 <= f.minutes <= 0 && -59 <= f.seconds <= 0
  {
    HmsRecompose(tsTime);
    Hms(Div(tsTime, SecondsInHour), Div(Rem(tsTime, SecondsInHour), SecondsInMinute), Rem(tsTime, SecondsInMinute))
  }

  /** The three truncating quotients and remainders recompose the duration, with the sign of the duration. */
  lemma HmsRecompose(t: int)
    ensures var h, m, sec := Div(t, 3600), Div(Rem(t, 3600), 60), Rem(t, 60);
      && h * 3600 + m * 60 + sec == t
      && (t >= 0 ==> h >= 0 && 0 <= m <= 59 && 0 <= sec <= 59)
      && (t <= 0 ==> h <= 0 && -59 <= m <= 0 && -59 <= sec <= 0)
  {
    var inHour := Rem(t, 3600);
    DivRemTruncate(t, 3600);
    DivRemTruncate(inHour, 60);
    // t and inHour differ by a multiple of 60 and have the same sign
    assert t == (Div(t, 3600) * 60 + Div(inHour, 60)) * 60 + Rem(inHour, 60);
    RemUnique(t, 60, Div(t, 3600) * 60 + Div(inHour, 60), Rem(inHour, 60));
  }

  /** `(end - start) / 1000` with Java's truncating division: whole seconds elapsed. */
  function ElapsedSeconds(end: int, start: int): int {
    Div(end - start, SecondInMilli)
  }

  /** `String.format("%02d:%02d:%02d", ...)` of the three fields, grouped at the first colon. */
  function RenderHms(f: Hms): string {
    Format02d(f.hours) + ":" + (Format02d(f.minutes) + ":" + Format02d(f.seconds))
  }

  /** The duration field of the log lines, from two nullable dates in milliseconds. */
  function BuildDurationFromDates(end: Nullable<int>, start: Nullable<int>): (r: string)
    ensures end.Null? || start.Null? ==> r == "00:00:00"
  {
    if end.NonNull? && start.NonNull? then
      RenderHms(SplitSeconds(ElapsedSeconds(end.value, start.value)))
    else
      "00:00:00"
  }

  /**
   * The rendering of non-negative fields: hours, a colon, two digits, a
   * colon, two digits. Hours of three digits or more carry no leading zero.
   */
  lemma RenderHmsReadsBack(f: Hms)
    requires f.hours >= 0 && 0 <= f.minutes <= 59 && 0 <= f.seconds <= 59
    ensures var r := RenderHms(f);
      && |r| >= 8 && r[|r| - 6] == ':' && r[|r| - 3] == ':'
      && AllDigits(r[..|r| - 6]) && AllDigits(r[|r| - 5..|r| - 3]) && AllDigits(r[|r| - 2..])
      && DigitsValue(r[..|r| - 6]) == f.hours
      && DigitsValue(r[|r| - 5..|r| - 3]) == f.minutes
      && DigitsValue(r[|r| - 2..]) == f.seconds
      && (|r| > 8 ==> r[0] != '0')
  {
    var h, m, s := Format02d(f.hours), Format02d(f.minutes), Format02d(f.seconds);
    var r := RenderHms(f);
    assert r == h + ":" + (m + ":" + s);
    assert r[..|r| - 6] == h;
    assert r[|r| - 5..|r| - 3] == m;
    assert r[|r| - 2..] == s;
  }

  /**
   * For an end date not before the start date, the rendering reads back as
   * the whole seconds elapsed: the hours before the second-last colon
   * (two digits, or more without a leading zero), two digits of minutes
   * below 60, two digits of seconds below 60.
   */
  lemma DurationReadsBack(end: int, start: int)
    requires end >= start
    ensures var r := BuildDurationFromDates(NonNull(end), NonNull(start));
      && |r| >= 8 && r[|r| - 6] == ':' && r[|r| - 3] == ':'
      && AllDigits(r[..|r| - 6]) && AllDigits(r[|r| - 5..|r| - 3]) && AllDigits(r[|r| - 2..])
      && DigitsValue(r[|r| - 5..|r| - 3]) < 60 && DigitsValue(r[|r| - 2..]) < 60
      && DigitsValue(r[..|r| - 6]) * 3600 + DigitsValue(r[|r| - 5..|r| - 3]) * 60 + DigitsValue(r[|r| - 2..])
         == (end - start) / 1000
      && (|r| > 8 ==> r[0] != '0')
  {
    var ts := ElapsedSeconds(end, start);
    assert ts == (end - start) / 1000;
    assert BuildDurationFromDates(NonNull(end), NonNull(start)) == RenderHms(SplitSeconds(ts));
    RenderHmsReadsBack(SplitSeconds(ts));
  }

  /** 3,661,000 milliseconds are one hour, one minute and one second. */
  lemma DurationOfOneHourOneMinuteOneSecond(start: int)
    ensures BuildDurationFromDates(NonNull(start + 3661000), NonNull(start)) == "01:01:01"
  {
    assert ElapsedSeconds(start + 3661000, start) == 3661;
    assert SplitSeconds(3661) == Hms(1, 1, 1);
    assert Format02d(1) == "01";
  }

  /** A field below zero shows as a minus sign in the rendering. */
  lemma RenderHmsShowsSign(f: Hms)
    requires f.hours < 0 || f.minutes < 0 || f.seconds < 0
    ensures exists k :: 0 <= k < |RenderHms(f)| && RenderHms(f)[k] == '-'
  {
    var h, m, s := Format02d(f.hours), Format02d(f.minutes), Format02d(f.seconds);
    var r := RenderHms(f);
    assert r == h + ":" + (m + ":" + s);
    if f.hours < 0 {
      assert r[0] == h[0] == '-';
    } else if f.minutes < 0 {
      assert r[|h| + 1] == m[0] == '-';
    } else {
      assert r[|h| + |m| + 2] == s[0] == '-';
    }
  }

  /** The result of reading a text back into a value: unreadable, or the value read. */
  datatype Reading<T> = Unreadable | Read(value: T)

  /** The text before the first `q` of `s` and the text after it; unreadable when `s` holds no `q`. */
  function CutAt(s: string, q: char): Reading<(string, string)> {
    var i := IndexOfFrom(s, q, 0);
    if i == |s| then Unreadable else Read((s[..i], s[i + 1..]))
  }

  /** Cutting `a + [q] + b` at its first `q`, when `a` holds none, gives back `a` and `b`. */
  lemma CutAtJoin(a: string, q: char, b: string)
    requires forall k :: 0 <= k < |a| ==> a[k] != q
    ensures CutAt(a + [q] + b, q) == Read((a, b))
  {
    var s := a + [q] + b;
    assert forall x :: 0 <= x < |a| ==> s[x] == a[x];
    IndexOfFromIs(s, q, 0, |a|);
    assert s[..|a|] == a && s[|a| + 1..] == b;
  }

  /**
   * Reading `H:M:S` back: three groups separated by the first two colons,
   * each a decimal as `Integer.parseInt` accepts it.
   */
  function ReadHms(r: string): Reading<Hms> {
    match CutAt(r, ':')
    case Unreadable => Unreadable
    case Read((h, rest)) =>
      match CutAt(rest, ':')
      case Unreadable => Unreadable
      case Read((m, s)) =>
        if IsDecimal(h) && IsDecimal(m) && IsDecimal(s) then Read(Hms(ParseDecimal(h), ParseDecimal(m), ParseDecimal(s)))
        else Unreadable
  }

  /** Three decimals joined by colons read back as the three numbers. */
  lemma ReadJoined(h: string, m: string, s: string)
    requires IsDecimal(h) && IsDecimal(m) && IsDecimal(s)
    ensures ReadHms(h + ":" + (m + ":" + s)) == Read(Hms(ParseDecimal(h), ParseDecimal(m), ParseDecimal(s)))
  {
    DecimalAvoids(h, ':');
    DecimalAvoids(m, ':');
    CutAtJoin(h, ':', m + ":" + s);
    CutAtJoin(m, ':', s);
  }

  /** Whatever the signs of the fields, each colon-separated group of the rendering parses back to its field. */
  lemma RenderHmsRoundTrip(f: Hms)
    ensures ReadHms(RenderHms(f)) == Read(f)
  {
    ReadJoined(Format02d(f.hours), Format02d(f.minutes), Format02d(f.seconds));
  }

  /**
   * For any two dates, the rendering reads back as three fields that
   * recompose the whole seconds elapsed, truncated toward zero; minutes and
   * seconds lie in [0, 59] when the end is not before the start, and every
   * field is zero or negative when it is not after it.
   */
  lemma DurationRoundTrip(end: int, start: int)
    ensures var p := ReadHms(BuildDurationFromDates(NonNull(end), NonNull(start)));
      && p.Read?
      && p.value.hours * 3600 + p.value.minutes * 60 + p.value.seconds == Div(end - start, 1000)
      && (end >= start ==> p.value.hours >= 0 && 0 <= p.value.minutes <= 59 && 0 <= p.value.seconds <= 59)
      && (end <= start ==> p.value.hours <= 0 && -59 <= p.value.minutes <= 0 && -59 <= p.value.seconds <= 0)
  {
    DivRemTruncate(end - start, SecondInMilli);
    RenderHmsRoundTrip(SplitSeconds(ElapsedSeconds(end, start)));
  }

  /**
   * When the end date is a whole second or more before the start date, the
   * rendering carries a minus sign and its groups parse back to fields that
   * are all zero or negative, at least one of them below zero.
   */
  lemma NegativeDurationShowsSign(end: int, start: int)
    requires end - start <= -1000
    ensures var r := BuildDurationFromDates(NonNull(end), NonNull(start));
      && (exists k :: 0 <= k < |r| && r[k] == '-')
      && ReadHms(r).Read?
      && var g := ReadHms(r).value;
         && g.hours <= 0 && g.minutes <= 0 && g.seconds <= 0
         && (g.hours < 0 || g.minutes < 0 || g.seconds < 0)
  {
    var ts := ElapsedSeconds(end, start);
    assert ts < 0 by {
      DivRemTruncate(end - start, SecondInMilli);
    }
    var f := SplitSeconds(ts);
    assert f.hours < 0 || f.minutes < 0 || f.seconds < 0;
    RenderHmsShowsSign(f);
    RenderHmsRoundTrip(f);
    assert BuildDurationFromDates(NonNull(end), NonNull(start)) == RenderHms(f);
  }

  // ---------------------------------------------------------------------
  // parseCommandLineToStringArray

  /**
   * The tokenizer runs `Matcher.find` over the pattern
   * `("[^"]*?"|'[^']*?'|\S+)`. A match is a span [start, end) of the
   * command line; the token is that slice, quotes included.
   */
  datatype Span = Span(start: nat, end: nat)

  /** The first index at or after `j` holding `q`, or `|s|` when there is none. */
  function IndexOfFrom(s: string, q: char, j: nat): (r: nat)
    requires j <= |s|
    ensures j <= r <= |s|
    ensures r < |s| ==> s[r] == q
    ensures forall k :: j <= k < r ==> s[k] != q
    decreases |s| - j
  {
    if j == |s| then |s| else if s[j] == q then j else IndexOfFrom(s, q, j + 1)
  }

  /** The end of the longest run of non-`\s` characters that starts at `i`. */
  function RunEnd(s: string, i: nat): (r: nat)
    requires i <= |s|
    ensures i <= r <= |s|
    ensures r < |s| ==> IsRegexSpace(s[r])
    ensures forall k :: i <= k < r ==> !IsRegexSpace(s[k])
    decreases |s| - i
  {
    if i == |s| || IsRegexSpace(s[i]) then i else RunEnd(s, i + 1)
  }

  /**
   * The end of the match the pattern makes when tried at `i`, alternatives
   * in order: a double-quoted span up to the next `"`, a single-quoted span
   * up to the next `'`, a maximal run of non-whitespace. Every alternative
   * is non-empty, so the value `i` means that nothing matches at `i`.
   */
  function MatchEnd(s: string, i: nat): (e: nat)
    requires i < |s|
    ensures i <= e <= |s|
  {
    if s[i] == '"' && IndexOfFrom(s, '"', i + 1) < |s| then IndexOfFrom(s, '"', i + 1) + 1
    else if s[i] == '\'' && IndexOfFrom(s, '\'', i + 1) < |s| then IndexOfFrom(s, '\'', i + 1) + 1
    else if !IsRegexSpace(s[i]) then RunEnd(s, i)
    else i
  }

  /** The spans that successive calls to `find` return, starting the search at `i`. */
  function Matches(s: string, i: nat): (ms: seq<Span>)
    requires i <= |s|
    ensures forall k :: 0 <= k < |ms| ==> i <= ms[k].start < ms[k].end <= |s|
    ensures forall k :: 0 < k < |ms| ==> ms[k - 1].end <= ms[k].start
    decreases |s| - i
  {
    if i == |s| then []
    else
      var e := MatchEnd(s, i);
      if e == i then Matches(s, i + 1) else [Span(i, e)] + Matches(s, e)
  }

  /** The slices of `s` that a sequence of spans covers. */
  function Slices(s: string, ms: seq<Span>): (ts: seq<string>)
    requires forall k :: 0 <= k < |ms| ==> ms[k].start <= ms[k].end <= |s|
    ensures |ts| == |ms|
    ensures forall k :: 0 <= k < |ms| ==> ts[k] == s[ms[k].start..ms[k].end]
  {
    if ms == [] then [] else [s[ms[0].start..ms[0].end]] + Slices(s, ms[1..])
  }

  /** The argument vector `parseCommandLineToStringArray` returns. */
  function Tokens(commandLine: string): seq<string> {
    Slices(commandLine, Matches(commandLine, 0))
  }

  /** The scan has reached `pos` having collected `tokens`: the tokens still to come complete them. */
  ghost predicate ScannedUpTo(s: string, tokens: seq<string>, pos: nat) {
    pos <= |s| && tokens + Slices(s, Matches(s, pos)) == Tokens(s)
  }

  /** A call to `find` that finds nothing at `pos` moves on one character and adds no token. */
  lemma ScanSkip(s: string, tokens: seq<string>, pos: nat)
    requires pos < |s| && ScannedUpTo(s, tokens, pos) && MatchEnd(s, pos) == pos
    ensures ScannedUpTo(s, tokens, pos + 1)
  {
    TokensFromStep(s, pos);
  }

  /** A call to `find` that matches `[pos, e)` adds that slice as the next token and resumes at `e`. */
  lemma ScanMatch(s: string, tokens: seq<string>, pos: nat)
    requires pos < |s| && ScannedUpTo(s, tokens, pos) && MatchEnd(s, pos) > pos
    ensures ScannedUpTo(s, tokens + [s[pos..MatchEnd(s, pos)]], MatchEnd(s, pos))
  {
    var e := MatchEnd(s, pos);
    var t, rest := s[pos..e], Slices(s, Matches(s, e));
    TokensFromStep(s, pos);
    assert tokens + ([t] + rest) == Tokens(s);
    assert tokens + [t] + rest == tokens + ([t] + rest);
  }

  /** `parseCommandLineToStringArray`: the `while (m.find())` loop collecting every match. */
  method ParseCommandLineToStringArray(commandLine: string) returns (tokens: seq<string>)
    ensures tokens == Tokens(commandLine)
  {
    tokens := [];
    var pos := 0;
    assert [] + Tokens(commandLine) == Tokens(commandLine);
    while pos < |commandLine|
      invariant ScannedUpTo(commandLine, tokens, pos)
      decreases |commandLine| - pos
    {
      var e := MatchEnd(commandLine, pos);
      if e == pos {
        // no alternative matches here: find moves on to the next character
        ScanSkip(commandLine, tokens, pos);
        pos := pos + 1;
      } else {
        ScanMatch(commandLine, tokens, pos);
        tokens := tokens + [commandLine[pos..e]];
        pos := e;
      }
    }
    assert tokens + [] == tokens;
  }

  // --- layout of the matches

  /** Some span of `ms` covers position `p`. */
  predicate Covered(ms: seq<Span>, p: int) {
    exists k :: 0 <= k < |ms| && ms[k].start <= p < ms[k].end
  }

  /**
   * One step of the scan: a position `find` skips over from `i` is
   * whitespace, and a position no match from `i` covers is not covered by
   * the matches from where the scan resumes either.
   */
  lemma UncoveredStep(s: string, i: nat, p: nat)
    requires i <= p < |s|
    requires !Covered(Matches(s, i), p)
    ensures p < NextSearch(s, i) ==> IsRegexSpace(s[p])
    ensures p >= NextSearch(s, i) ==> !Covered(Matches(s, NextSearch(s, i)), p)
  {
    var ms := Matches(s, i);
    var e := MatchEnd(s, i);
    if e == i {
      assert ms == Matches(s, i + 1);
    } else {
      assert ms[0] == Span(i, e);
      var rest := Matches(s, e);
      assert ms[1..] == rest;
      forall k | 0 <= k < |rest| ensures !(rest[k].start <= p < rest[k].end) {
        assert rest[k] == ms[k + 1];
      }
    }
  }

  /** Every character no token covers is whitespace. */
  lemma {:induction false} UncoveredIsSpace(s: string, i: nat, p: nat)
    requires i <= p < |s|
    requires !Covered(Matches(s, i), p)
    ensures IsRegexSpace(s[p])
    decreases |s| - i
  {
    UncoveredStep(s, i, p);
    if p >= NextSearch(s, i) {
      UncoveredIsSpace(s, NextSearch(s, i), p);
    }
  }

  // --- shape of each match

  /** A later occurrence of quote `q` exists after position `i`. */
  predicate ClosedAfter(s: string, i: nat, q: char) {
    exists j :: i < j < |s| && s[j] == q
  }

  /** The span runs from the quote `q` at its start to the next `q`, both quotes included. */
  predicate QuotedSpan(s: string, sp: Span, q: char)
    requires sp.start < sp.end <= |s|
  {
    && sp.end >= sp.start + 2
    && s[sp.start] == q && s[sp.end - 1] == q
    && forall k :: sp.start < k < sp.end - 1 ==> s[k] != q
  }

  /** The span is a run of non-whitespace followed by whitespace or the end of input. */
  predicate MaximalWord(s: string, sp: Span)
    requires sp.start < sp.end <= |s|
  {
    && (forall k :: sp.start <= k < sp.end ==> !IsRegexSpace(s[k]))
    && (sp.end == |s| || IsRegexSpace(s[sp.end]))
  }

  /** The shape the pattern gives a match, according to its first character. */
  predicate WellShaped(s: string, sp: Span)
    requires sp.start < sp.end <= |s|
  {
    if s[sp.start] == '"' && ClosedAfter(s, sp.start, '"') then QuotedSpan(s, sp, '"')
    else if s[sp.start] == '\'' && ClosedAfter(s, sp.start, '\'') then QuotedSpan(s, sp, '\'')
    else MaximalWord(s, sp)
  }

  /** The match made at `i`, when there is one, has the shape of its alternative. */
  lemma MatchAtIsWellShaped(s: string, i: nat)
    requires i < |s| && MatchEnd(s, i) > i
    ensures WellShaped(s, Span(i, MatchEnd(s, i)))
  {
    var dq := IndexOfFrom(s, '"', i + 1);
    var sq := IndexOfFrom(s, '\'', i + 1);
    if s[i] == '"' && ClosedAfter(s, i, '"') {
      var j :| i < j < |s| && s[j] == '"';
      assert dq <= j;
    } else if s[i] == '\'' && ClosedAfter(s, i, '\'') {
      var j :| i < j < |s| && s[j] == '\'';
      assert sq <= j;
    } else if s[i] == '"' {
      assert dq == |s|;
    } else if s[i] == '\'' {
      assert sq == |s|;
    }
  }

  /** Every token has the shape of the alternative that matched it. */
  lemma {:induction false} MatchesAreWellShaped(s: string, i: nat)
    requires i <= |s|
    ensures forall k :: 0 <= k < |Matches(s, i)| ==> WellShaped(s, Matches(s, i)[k])
    decreases |s| - i
  {
    if i < |s| {
      var e := MatchEnd(s, i);
      if e == i {
        MatchesAreWellShaped(s, i + 1);
      } else {
        MatchAtIsWellShaped(s, i);
        MatchesAreWellShaped(s, e);
      }
    }
  }

  // --- a command line without quotes

  /** Splitting at every whitespace character, as `split("\\s")` would keep empty pieces. */
  function SplitAtSpaces(s: string): (pieces: seq<string>)
    ensures |pieces| >= 1
  {
    if s == [] then [""]
    else
      var rest := SplitAtSpaces(s[1..]);
      if IsRegexSpace(s[0]) then [""] + rest else [[s[0]] + rest[0]] + rest[1..]
  }

  /** The pieces that are not empty. */
  function NonEmpty(pieces: seq<string>): seq<string> {
    if pieces == [] then []
    else if pieces[0] == "" then NonEmpty(pieces[1..])
    else [pieces[0]] + NonEmpty(pieces[1..])
  }

  /** The whitespace-separated words of `s`. */
  function Words(s: string): seq<string> {
    NonEmpty(SplitAtSpaces(s))
  }

  predicate HasNoQuote(s: string) {
    forall k :: 0 <= k < |s| ==> s[k] != '"' && s[k] != '\''
  }

  /** Splitting a word glued to `rest` glues the word to the first piece of `rest`. */
  lemma {:induction false} SplitOfWord(w: string, rest: string)
    requires forall k :: 0 <= k < |w| ==> !IsRegexSpace(w[k])
    ensures SplitAtSpaces(w + rest) ==
      [w + SplitAtSpaces(rest)[0]] + SplitAtSpaces(rest)[1..]
    decreases |w|
  {
    var t := SplitAtSpaces(rest);
    if w == [] {
      assert w + rest == rest && w + t[0] == t[0];
      assert t == [t[0]] + t[1..];
    } else {
      var x := w + rest;
      assert x[0] == w[0] && x[1..] == w[1..] + rest;
      SplitOfWord(w[1..], rest);
      assert [w[0]] + (w[1..] + t[0]) == w + t[0];
    }
  }

  /** A whitespace character in front adds only an empty piece, which `Words` drops. */
  lemma WordsAfterSpace(s: string)
    requires s != [] && IsRegexSpace(s[0])
    ensures Words(s) == Words(s[1..])
  {
  }

  /** A word followed by whitespace or the end is the first of the words. */
  lemma WordsAfterWord(w: string, rest: string)
    requires w != [] && forall k :: 0 <= k < |w| ==> !IsRegexSpace(w[k])
    requires rest == [] || IsRegexSpace(rest[0])
    ensures Words(w + rest) == [w] + Words(rest)
  {
    SplitOfWord(w, rest);
    var t := SplitAtSpaces(rest);
    assert t[0] == "";
    assert w + t[0] == w;
    assert NonEmpty(t) == NonEmpty(t[1..]);
  }

  /** Without quote characters, a match is a run of non-whitespace followed by whitespace or the end. */
  lemma NoQuoteMatchIsWord(s: string, i: nat)
    requires i < |s| && HasNoQuote(s) && MatchEnd(s, i) > i
    ensures var e := MatchEnd(s, i);
      && (forall k :: 0 <= k < |s[i..e]| ==> !IsRegexSpace(s[i..e][k]))
      && (s[e..] == [] || IsRegexSpace(s[e..][0]))
  {
    var e := MatchEnd(s, i);
    assert e == RunEnd(s, i);
    forall k | 0 <= k < |s[i..e]| ensures !IsRegexSpace(s[i..e][k]) {
      assert s[i..e][k] == s[i + k];
    }
  }

  /** The tokens from `i` are the token matched at `i`, if any, followed by the tokens after it. */
  lemma TokensFromStep(s: string, i: nat)
    requires i < |s|
    ensures var e := MatchEnd(s, i);
      if e == i then Slices(s, Matches(s, i)) == Slices(s, Matches(s, i + 1))
      else Slices(s, Matches(s, i)) == [s[i..e]] + Slices(s, Matches(s, e))
  {
    var e := MatchEnd(s, i);
    if e > i {
      assert Matches(s, i)[1..] == Matches(s, e);
    }
  }

  /** Without quote characters, the match at `i` is the first word of the rest of the line. */
  lemma NoQuoteMatchIsFirstWord(s: string, i: nat)
    requires i < |s| && HasNoQuote(s) && MatchEnd(s, i) > i
    ensures Words(s[i..]) == [s[i..MatchEnd(s, i)]] + Words(s[MatchEnd(s, i)..])
  {
    var e := MatchEnd(s, i);
    var w, r := s[i..e], s[e..];
    NoQuoteMatchIsWord(s, i);
    WordsAfterWord(w, r);
    assert s[i..] == w + r;
  }

  /** Where `find` resumes after trying `i`: past the match, or one character on when there is none. */
  function NextSearch(s: string, i: nat): (j: nat)
    requires i < |s|
    ensures i < j <= |s|
  {
    var e := MatchEnd(s, i);
    if e == i then i + 1 else e
  }

  /**
   * One step of the scan over a line without quotes: if the tokens from
   * where the scan resumes are the words there, the tokens from `i` are the
   * words from `i`.
   */
  lemma NoQuoteStep(s: string, i: nat)
    requires i < |s| && HasNoQuote(s)
    requires Slices(s, Matches(s, NextSearch(s, i))) == Words(s[NextSearch(s, i)..])
    ensures Slices(s, Matches(s, i)) == Words(s[i..])
  {
    TokensFromStep(s, i);
    if MatchEnd(s, i) == i {
      assert s[i..][1..] == s[i + 1..];
      WordsAfterSpace(s[i..]);
    } else {
      NoQuoteMatchIsFirstWord(s, i);
    }
  }

  /** Without quote characters, the tokens from `i` are the words of the rest of the line. */
  lemma {:induction false} NoQuoteTokensFrom(s: string, i: nat)
    requires i <= |s| && HasNoQuote(s)
    ensures Slices(s, Matches(s, i)) == Words(s[i..])
    decreases |s| - i
  {
    if i == |s| {
      assert s[i..] == [];
    } else {
      NoQuoteTokensFrom(s, NextSearch(s, i));
      NoQuoteStep(s, i);
    }
  }

  /** A command line without quotes tokenizes to exactly its whitespace-separated words. */
  lemma NoQuoteTokensAreWords(s: string)
    requires HasNoQuote(s)
    ensures Tokens(s) == Words(s)
  {
    NoQuoteTokensFrom(s, 0);
    assert s[0..] == s;
  }

  /** A line of nothing but whitespace gives no match from any position. */
  lemma {:induction false} BlankHasNoMatches(s: string, i: nat)
    requires i <= |s|
    requires forall k :: 0 <= k < |s| ==> IsRegexSpace(s[k])
    ensures Matches(s, i) == []
    decreases |s| - i
  {
    if i < |s| {
      assert MatchEnd(s, i) == i;
      BlankHasNoMatches(s, i + 1);
    }
  }

  /**
   * The argument vector is empty exactly when the command line is nothing
   * but `\s` whitespace (the empty line included).
   */
  lemma NoTokensIffBlank(s: string)
    ensures Tokens(s) == [] <==> forall k :: 0 <= k < |s| ==> IsRegexSpace(s[k])
  {
    if Tokens(s) == [] {
      forall p | 0 <= p < |s| ensures IsRegexSpace(s[p]) {
        UncoveredIsSpace(s, 0, p);
      }
    }
    if forall k :: 0 <= k < |s| ==> IsRegexSpace(s[k]) {
      BlankHasNoMatches(s, 0);
    }
  }

  /** The search for `q` from `j` stops at the first `q`. */
  lemma IndexOfFromIs(s: string, q: char, j: nat, k: nat)
    requires j <= k < |s| && s[k] == q
    requires forall x :: j <= x < k ==> s[x] != q
    ensures IndexOfFrom(s, q, j) == k
  {
  }

  /** The run of non-whitespace from `i` stops at the first whitespace or the end. */
  lemma RunEndIs(s: string, i: nat, k: nat)
    requires i <= k <= |s| && (k == |s| || IsRegexSpace(s[k]))
    requires forall x :: i <= x < k ==> !IsRegexSpace(s[x])
    ensures RunEnd(s, i) == k
  {
  }

  /** A command line with a double-quoted and a single-quoted argument. */
  const QuotedLine: string := "foo \"bar baz\" 'qux'"

  /** Where the word and the blanks of `QuotedLine` end a match attempt. */
  lemma QuotedLineWordEnds()
    ensures MatchEnd(QuotedLine, 0) == 3 && MatchEnd(QuotedLine, 3) == 3 && MatchEnd(QuotedLine, 13) == 13
  {
    RunEndIs(QuotedLine, 0, 3);
  }

  /** Where the two quoted arguments of `QuotedLine` end their matches. */
  lemma QuotedLineQuoteEnds()
    ensures MatchEnd(QuotedLine, 4) == 13 && MatchEnd(QuotedLine, 14) == 19
  {
    IndexOfFromIs(QuotedLine, '"', 5, 12);
    IndexOfFromIs(QuotedLine, '\'', 15, 18);
  }

  /** The spans `find` returns on `QuotedLine` from the blank after the first quoted argument. */
  lemma QuotedLineLastMatch()
    ensures Matches(QuotedLine, 13) == [Span(14, 19)]
  {
    QuotedLineWordEnds();
    QuotedLineQuoteEnds();
    assert Matches(QuotedLine, 14) == [Span(14, 19)];
  }

  /** The spans `find` returns on `QuotedLine`. */
  lemma QuotedLineMatches()
    ensures Matches(QuotedLine, 0) == [Span(0, 3), Span(4, 13), Span(14, 19)]
  {
    QuotedLineWordEnds();
    QuotedLineQuoteEnds();
    QuotedLineLastMatch();
    assert Matches(QuotedLine, 3) == [Span(4, 13), Span(14, 19)];
  }

  /** The slices of `QuotedLine` those spans cover. */
  lemma QuotedLineSlices()
    ensures QuotedLine[0..3] == "foo"
    ensures QuotedLine[4..13] == "\"bar baz\""
    ensures QuotedLine[14..19] == "'qux'"
  {
  }

  /** Quoted spans keep their quotes and their inner whitespace. */
  lemma QuotedExample()
    ensures Tokens(QuotedLine) == ["foo", "\"bar baz\"", "'qux'"]
  {
    var s := QuotedLine;
    QuotedLineMatches();
    QuotedLineSlices();
    var ts := Tokens(s);
    assert |ts| == 3;
    assert ts[0] == "foo" && ts[1] == "\"bar baz\"" && ts[2] == "'qux'";
  }
}
