/**
 The text of a journal: how `EventWriter.append` frames records (app/storage/event_store/writer.py)
 and how recovery, rebuild and the reader take the file apart again. A file decodes to a text of
 Unicode scalar values.
 */
module JournalText {
  import opened Texts
  import opened Wrappers
  import Bytes

  /*** Lines ***/

  /** Where `str.splitlines` cuts. */
  predicate IsBreak(c: char) {
    '\n' <= c <= '\r' || '\U{1c}' <= c <= '\U{1e}' || c == '\U{85}' || c == '\U{2028}' || c == '\U{2029}'
  }

  predicate NoBreak(s: string) {
    forall i :: 0 <= i < |s| ==> !IsBreak(s[i])
  }

  /** The position of the first break, or the length of a text without one. */
  function FirstBreak(s: string): (n: nat)
    ensures n <= |s| && NoBreak(s[..n]) && (n < |s| ==> IsBreak(s[n]))
  {
    if s == "" || IsBreak(s[0]) then 0
    else
      var n := FirstBreak(s[1..]);
      assert s[..n + 1] == [s[0]] + s[1..][..n];
      n + 1
  }

  /** `str.splitlines`. */
  function SplitLines(s: string): (lines: seq<string>) {
    if s == "" then []
    else
      var n := FirstBreak(s);
      if n == |s| then [s]
      else
        var width := if s[n] == '\r' && n + 1 < |s| && s[n + 1] == '\n' then 2 else 1;
        [s[..n]] + SplitLines(s[n + width..])
  }

  /** What reading in text mode makes of line ends. */
  function UniversalNewlines(s: string): string {
    if s == "" then ""
    else if s[0] != '\r' then [s[0]] + UniversalNewlines(s[1..])
    else if |s| > 1 && s[1] == '\n' then "\n" + UniversalNewlines(s[2..])
    else "\n" + UniversalNewlines(s[1..])
  }

  /** `path.read_text().splitlines()` of a file that decodes to `s`. */
  function ReadLines(s: string): seq<string> {
    SplitLines(UniversalNewlines(s))
  }

  /** Texts, each ended by a newline. */
  function Framed(lines: seq<string>): string {
    if lines == [] then "" else lines[0] + "\n" + Framed(lines[1..])
  }

  lemma {:induction false} NewlinesUnchanged(s: string)
    requires '\r' !in s
    ensures UniversalNewlines(s) == s
  {
    if s == "" {
    } else {
      NewlinesUnchanged(s[1..]);
      assert s == [s[0]] + s[1..];
    }
  }

  lemma {:induction false} LinesHaveNoBreak(s: string)
    ensures forall k :: 0 <= k < |SplitLines(s)| ==> NoBreak(SplitLines(s)[k])
    decreases |s|
  {
    if s == "" {
    } else {
      var n := FirstBreak(s);
      if n == |s| {
        assert s[..n] == s;
      } else {
        var width := if s[n] == '\r' && n + 1 < |s| && s[n + 1] == '\n' then 2 else 1;
        LinesHaveNoBreak(s[n + width..]);
      }
    }
  }

  lemma FirstBreakAt(s: string, n: nat)
    requires n < |s| && IsBreak(s[n]) && NoBreak(s[..n])
    ensures FirstBreak(s) == n
  {
    var m := FirstBreak(s);
    assert forall k :: 0 <= k < n ==> s[..n][k] == s[k];
    assert forall k :: 0 <= k < m ==> s[..m][k] == s[k];
  }

  /** Text up to a break comes out as the first line. */
  lemma SplitAtBreak(line: string, c: char, rest: string)
    requires NoBreak(line) && IsBreak(c) && c != '\r'
    ensures SplitLines(line + [c] + rest) == [line] + SplitLines(rest)
  {
    var s, n := line + [c] + rest, |line|;
    assert s[..n] == line && s[n] == c && s[n + 1..] == rest;
    FirstBreakAt(s, n);
  }

  lemma {:induction false} FramedSplits(lines: seq<string>)
    requires forall i :: 0 <= i < |lines| ==> NoBreak(lines[i])
    ensures SplitLines(Framed(lines)) == lines && '\r' !in Framed(lines)
  {
    if lines == [] {
    } else {
      FramedSplits(lines[1..]);
      SplitAtBreak(lines[0], '\n', Framed(lines[1..]));
      assert lines == [lines[0]] + lines[1..];
    }
  }

  lemma CutAtBreak(s: string, n: nat)
    requires n < |s| && IsBreak(s[n]) && NoBreak(s[..n])
    ensures SplitLines(s) != [] && SplitLines(s)[0] == s[..n]
  {
    FirstBreakAt(s, n);
  }

  /** The lines before line `k` come out whole, and line `k` up to position `n`. */
  predicate CutsAt(pieces: seq<string>, lines: seq<string>, k: nat, n: nat) {
    && k < |pieces| && k < |lines| && n <= |lines[k]|
    && pieces[..k] == lines[..k]
    && pieces[k] == lines[k][..n]
  }

  lemma CutsAtCons(first: string, pieces: seq<string>, lines: seq<string>, k: nat, n: nat)
    requires CutsAt(pieces, lines, k, n)
    ensures CutsAt([first] + pieces, [first] + lines, k + 1, n)
  {
    assert ([first] + pieces)[..k + 1] == [first] + pieces[..k];
    assert ([first] + lines)[..k + 1] == [first] + lines[..k];
  }

  lemma FirstCut(line: string, rest: string, n: nat)
    requires n < |line| && IsBreak(line[n]) && NoBreak(line[..n])
    ensures SplitLines(line + "\n" + rest) != [] && SplitLines(line + "\n" + rest)[0] == line[..n]
  {
    assert (line + "\n" + rest)[..n] == line[..n];
    CutAtBreak(line + "\n" + rest, n);
  }

  /** Lines before the first one that holds a break come out whole, and that one is cut there. */
  lemma {:induction false} FramedCutAt(lines: seq<string>, k: nat, n: nat)
    requires k < |lines| && forall i :: 0 <= i < k ==> NoBreak(lines[i])
    requires n < |lines[k]| && IsBreak(lines[k][n]) && NoBreak(lines[k][..n])
    ensures CutsAt(SplitLines(Framed(lines)), lines, k, n)
    decreases k
  {
    var first, rest := lines[0], lines[1..];
    if k == 0 {
      FirstCut(first, Framed(rest), n);
    } else {
      FramedCutAt(rest, k - 1, n);
      SplitAtBreak(first, '\n', Framed(rest));
      CutsAtCons(first, SplitLines(Framed(rest)), rest, k - 1, n);
      assert lines == [first] + rest;
    }
  }

  lemma {:induction false} FramedHasNoReturn(lines: seq<string>)
    requires forall i :: 0 <= i < |lines| ==> '\r' !in lines[i]
    ensures '\r' !in Framed(lines)
  {
    if lines == [] {
    } else {
      FramedHasNoReturn(lines[1..]);
    }
  }

  /** What was framed with newlines reads back as it was exactly when no text holds a character at
      which `splitlines` cuts. */
  lemma FramedReadsBackIff(lines: seq<string>)
    ensures ReadLines(Framed(lines)) == lines <==> forall i :: 0 <= i < |lines| ==> NoBreak(lines[i])
  {
    if forall i :: 0 <= i < |lines| ==> NoBreak(lines[i]) {
      FramedSplits(lines);
      NewlinesUnchanged(Framed(lines));
    }
    LinesHaveNoBreak(UniversalNewlines(Framed(lines)));
  }

  /*** JSON text ***/

  /** What the encoder emits: punctuation, numbers and names as they are, and string literals. */
  datatype Token = Plain(text: string) | Quoted(text: string)

  predicate PlainText(s: string) {
    forall i :: 0 <= i < |s| ==> ' ' <= s[i] <= '~' && s[i] != '"' && s[i] != '\\'
  }

  /** `json.dumps(..., ensure_ascii=False)` on one character: beyond the quote and the backslash,
      only control characters are escaped. */
  function EscapeChar(c: char): (s: string)
    ensures s != ""
  {
    match c
    case '"' => "\\\""
    case '\\' => "\\\\"
    case '\n' => "\\n"
    case '\r' => "\\r"
    case '\t' => "\\t"
    case '\U{8}' => "\\b"
    case '\U{c}' => "\\f"
    case _ => if c < ' ' then "\\u00" + [Bytes.HexDigit(c as int / 16), Bytes.HexDigit(c as int % 16)] else [c]
  }

  function Escape(s: string): string {
    if s == "" then "" else EscapeChar(s[0]) + Escape(s[1..])
  }

  /** One character of the inside of a JSON string literal, and what follows it. */
  function ReadChar(s: string): (r: Option<(char, string)>)
    ensures r.Some? ==> |r.value.1| < |s|
  {
    if s == "" || s[0] == '"' || s[0] < ' ' then None
    else if s[0] != '\\' then Some((s[0], s[1..]))
    else if |s| < 2 then None
    else
      match s[1]
      case '"' => Some(('"', s[2..]))
      case '\\' => Some(('\\', s[2..]))
      case '/' => Some(('/', s[2..]))
      case 'b' => Some(('\U{8}', s[2..]))
      case 'f' => Some(('\U{c}', s[2..]))
      case 'n' => Some(('\n', s[2..]))
      case 'r' => Some(('\r', s[2..]))
      case 't' => Some(('\t', s[2..]))
      case 'u' => ReadCodePoint(s[2..])
      case _ => None
  }

  /** Four hexadecimal digits; only those below U+0100 are needed here. */
  function ReadCodePoint(s: string): (r: Option<(char, string)>)
    ensures r.Some? ==> |r.value.1| < |s|
  {
    if |s| < 4 || s[0] != '0' || s[1] != '0' then None
    else
      match (Bytes.HexValue(s[2]), Bytes.HexValue(s[3]))
      case (Some(high), Some(low)) => Some(((16 * high + low) as char, s[4..]))
      case _ => None
  }

  /** The text that the inside of a string literal stands for. */
  function Unescape(s: string): Option<string>
    decreases |s|
  {
    if s == "" then Some("")
    else
      match ReadChar(s)
      case None => None
      case Some((c, rest)) =>
        match Unescape(rest)
        case None => None
        case Some(text) => Some([c] + text)
  }

  lemma CodePointReads(c: char, rest: string)
    requires c < ' '
    ensures ReadCodePoint("00" + [Bytes.HexDigit(c as int / 16), Bytes.HexDigit(c as int % 16)] + rest)
      == Some((c, rest))
  {
    var s := "00" + [Bytes.HexDigit(c as int / 16), Bytes.HexDigit(c as int % 16)] + rest;
    Bytes.HexDigitValue(c as int / 16);
    Bytes.HexDigitValue(c as int % 16);
    assert s[4..] == rest;
  }

  lemma EscapedCharReads(c: char, rest: string)
    ensures ReadChar(EscapeChar(c) + rest) == Some((c, rest))
  {
    var s := EscapeChar(c) + rest;
    if c < ' ' && c !in {'\n', '\r', '\t', '\U{8}', '\U{c}'} {
      CodePointReads(c, rest);
      assert s[2..] == "00" + [Bytes.HexDigit(c as int / 16), Bytes.HexDigit(c as int % 16)] + rest;
    } else if |EscapeChar(c)| == 2 {
      assert s[2..] == rest;
    } else {
      assert s[1..] == rest;
    }
  }

  lemma UnescapeCons(s: string, c: char, rest: string, text: string)
    requires s != "" && ReadChar(s) == Some((c, rest)) && Unescape(rest) == Some(text)
    ensures Unescape(s) == Some([c] + text)
  {
  }

  /** Escaping loses nothing: the inside of every literal stands for the text it was made from. */
  lemma {:induction false} EscapedReads(s: string)
    ensures Unescape(Escape(s)) == Some(s)
  {
    if s == "" {
    } else {
      EscapedReads(s[1..]);
      EscapedCharReads(s[0], Escape(s[1..]));
      UnescapeCons(Escape(s), s[0], Escape(s[1..]), s[1..]);
      assert s == [s[0]] + s[1..];
    }
  }

  function Show(t: Token): string {
    match t
    case Plain(text) => text
    case Quoted(text) => "\"" + Escape(text) + "\""
  }

  function Join(parts: seq<string>): string {
    if parts == [] then "" else parts[0] + Join(parts[1..])
  }

  function Shown(tokens: seq<Token>): (parts: seq<string>)
    ensures |parts| == |tokens| && forall i :: 0 <= i < |tokens| ==> parts[i] == Show(tokens[i])
  {
    seq(|tokens|, i requires 0 <= i < |tokens| => Show(tokens[i]))
  }

  function Render(tokens: seq<Token>): string {
    Join(Shown(tokens))
  }

  /** Inside or outside a string literal, or right behind a backslash in one. */
  datatype Mode = Outside | Inside | Escaped

  function Step(mode: Mode, c: char): Mode {
    match mode
    case Outside => if c == '"' then Inside else Outside
    case Inside => if c == '"' then Outside else if c == '\\' then Escaped else Inside
    case Escaped => Inside
  }

  function Scan(mode: Mode, s: string): Mode
    decreases |s|
  {
    if s == "" then mode else Scan(Step(mode, s[0]), s[1..])
  }

  /** Every string literal of the text is closed. */
  predicate Closed(s: string) {
    Scan(Outside, s) == Outside
  }

  lemma {:induction false} ScanConcat(mode: Mode, a: string, b: string)
    ensures Scan(mode, a + b) == Scan(Scan(mode, a), b)
    decreases |a|
  {
    if a == "" {
      assert a + b == b;
    } else {
      ScanConcat(Step(mode, a[0]), a[1..], b);
      assert (a + b)[1..] == a[1..] + b;
    }
  }

  lemma {:induction false} ScanOutside(s: string)
    requires '"' !in s
    ensures Scan(Outside, s) == Outside
  {
    if s == "" {
    } else {
      ScanOutside(s[1..]);
    }
  }

  /** The characters that the encoder leaves as they are and `splitlines` cuts at. */
  predicate IsRawBreak(c: char) {
    c == '\U{85}' || c == '\U{2028}' || c == '\U{2029}'
  }

  lemma {:induction false} ScanInside(s: string)
    requires '"' !in s && '\\' !in s
    ensures Scan(Inside, s) == Inside
  {
    if s == "" {
    } else {
      ScanInside(s[1..]);
    }
  }

  lemma ScanEscapedChar(c: char)
    ensures Scan(Inside, EscapeChar(c)) == Inside
  {
    var s := EscapeChar(c);
    if |s| >= 2 {
      assert s[0] == '\\' && s == [s[0], s[1]] + s[2..];
      ScanInside(s[2..]);
      assert s[1..][1..] == s[2..];
    }
  }

  lemma EscapedBreak(c: char)
    ensures IsRawBreak(c) ==> EscapeChar(c) == [c] && IsBreak(c)
    ensures !IsRawBreak(c) ==> NoBreak(EscapeChar(c))
  {
  }

  lemma {:induction false} ScanEscaped(s: string)
    ensures Scan(Inside, Escape(s)) == Inside
  {
    if s == "" {
    } else {
      ScanEscapedChar(s[0]);
      ScanEscaped(s[1..]);
      ScanConcat(Inside, EscapeChar(s[0]), Escape(s[1..]));
    }
  }

  lemma ScanShown(t: Token)
    requires t.Plain? ==> PlainText(t.text)
    ensures Closed(Show(t))
  {
    match t
    case Plain(text) => ScanOutside(text);
    case Quoted(text) =>
      ScanEscaped(text);
      ScanConcat(Outside, "\"", Escape(text));
      ScanConcat(Outside, "\"" + Escape(text), "\"");
  }

  /** A string without raw breaks is escaped to a text without breaks. */
  predicate Clean(s: string) {
    forall i :: 0 <= i < |s| ==> !IsRawBreak(s[i])
  }

  lemma {:induction false} CleanEscapes(s: string)
    requires Clean(s)
    ensures NoBreak(Escape(s))
  {
    if s == "" {
    } else {
      EscapedBreak(s[0]);
      CleanEscapes(s[1..]);
    }
  }

  /** Up to its first raw break, an escaped string has no break, and there it has one. */
  lemma {:induction false} DirtyEscapes(s: string) returns (n: nat)
    requires !Clean(s)
    ensures n < |Escape(s)| && IsBreak(Escape(s)[n]) && NoBreak(Escape(s)[..n])
    ensures Scan(Inside, Escape(s)[..n]) == Inside
  {
    var first, rest := EscapeChar(s[0]), Escape(s[1..]);
    EscapedBreak(s[0]);
    if IsRawBreak(s[0]) {
      n := 0;
    } else {
      var m := DirtyEscapes(s[1..]);
      n := |first| + m;
      assert Escape(s)[..n] == first + rest[..m];
      ScanEscapedChar(s[0]);
      ScanConcat(Inside, first, rest[..m]);
    }
  }

  /** Whether every string of a record is without raw breaks. */
  predicate CleanTokens(tokens: seq<Token>) {
    forall i :: 0 <= i < |tokens| && tokens[i].Quoted? ==> Clean(tokens[i].text)
  }

  predicate PlainTokens(tokens: seq<Token>) {
    forall i :: 0 <= i < |tokens| && tokens[i].Plain? ==> PlainText(tokens[i].text)
  }

  lemma CleanShows(t: Token)
    requires if t.Plain? then PlainText(t.text) else Clean(t.text)
    ensures NoBreak(Show(t)) && Closed(Show(t))
  {
    ScanShown(t);
    if t.Quoted? {
      CleanEscapes(t.text);
    }
  }

  lemma {:induction false} JoinOfClosed(parts: seq<string>)
    requires forall i :: 0 <= i < |parts| ==> Closed(parts[i])
    ensures Closed(Join(parts))
  {
    if parts == [] {
    } else {
      JoinOfClosed(parts[1..]);
      ScanConcat(Outside, parts[0], Join(parts[1..]));
    }
  }

  lemma {:induction false} JoinOfUnbroken(parts: seq<string>)
    requires forall i :: 0 <= i < |parts| ==> NoBreak(parts[i])
    ensures NoBreak(Join(parts))
  {
    if parts == [] {
    } else {
      JoinOfUnbroken(parts[1..]);
    }
  }

  lemma {:induction false} JoinHasNoReturn(parts: seq<string>)
    requires forall i :: 0 <= i < |parts| ==> '\r' !in parts[i]
    ensures '\r' !in Join(parts)
  {
    if parts == [] {
    } else {
      JoinHasNoReturn(parts[1..]);
    }
  }

  lemma JoinCons(first: string, rest: seq<string>)
    ensures Join([first] + rest) == first + Join(rest)
  {
    assert ([first] + rest)[1..] == rest;
  }

  lemma JoinAssociates(a: string, b: string, c: string)
    ensures a + (b + c) == a + b + c
  {
  }

  lemma {:induction false} JoinConcat(a: seq<string>, b: seq<string>)
    ensures Join(a + b) == Join(a) + Join(b)
  {
    if a == [] {
      assert a + b == b;
    } else {
      var first, rest := a[0], a[1..];
      JoinConcat(rest, b);
      assert a + b == [first] + (rest + b);
      JoinCons(first, rest + b);
      JoinAssociates(first, Join(rest), Join(b));
    }
  }

  lemma CleanRenders(tokens: seq<Token>)
    requires PlainTokens(tokens) && CleanTokens(tokens)
    ensures NoBreak(Render(tokens)) && Closed(Render(tokens))
  {
    var parts := Shown(tokens);
    forall i | 0 <= i < |parts| ensures NoBreak(parts[i]) && Closed(parts[i]) {
      CleanShows(tokens[i]);
    }
    JoinOfUnbroken(parts);
    JoinOfClosed(parts);
  }

  /** The first break of `s` is at `n`, inside a string literal. */
  predicate BreaksInside(s: string, n: nat) {
    n < |s| && IsBreak(s[n]) && NoBreak(s[..n]) && Scan(Outside, s[..n]) == Inside
  }

  lemma DirtyShows(text: string, rest: string) returns (n: nat)
    requires !Clean(text)
    ensures BreaksInside(Show(Quoted(text)) + rest, n)
  {
    var m := DirtyEscapes(text);
    var s, quote := Show(Quoted(text)) + rest, "\"";
    n := m + 1;
    assert s[..n] == quote + Escape(text)[..m] && s[n] == Escape(text)[m];
    ScanConcat(Outside, quote, Escape(text)[..m]);
  }

  lemma BreaksAfter(first: string, tail: string, m: nat)
    requires NoBreak(first) && Closed(first) && BreaksInside(tail, m)
    ensures BreaksInside(first + tail, |first| + m)
  {
    assert (first + tail)[..|first| + m] == first + tail[..m];
    ScanConcat(Outside, first, tail[..m]);
  }

  lemma JoinAround(before: seq<string>, part: string, behind: seq<string>)
    ensures Join(before + [part] + behind) == Join(before) + (part + Join(behind))
  {
    assert before + [part] + behind == before + ([part] + behind);
    JoinConcat(before, [part] + behind);
    JoinCons(part, behind);
  }

  lemma BreaksBetween(before: seq<string>, text: string, behind: seq<string>) returns (n: nat)
    requires NoBreak(Join(before)) && Closed(Join(before)) && !Clean(text)
    ensures BreaksInside(Join(before + [Show(Quoted(text))] + behind), n)
  {
    var part, rest := Show(Quoted(text)), Join(behind);
    var m := DirtyShows(text, rest);
    BreaksAfter(Join(before), part + rest, m);
    n := |Join(before)| + m;
    JoinAround(before, part, behind);
  }

  lemma ShownAround(tokens: seq<Token>, i: nat)
    requires i < |tokens|
    ensures Shown(tokens) == Shown(tokens[..i]) + [Show(tokens[i])] + Shown(tokens[i + 1..])
  {
  }

  lemma FirstDirtyToken(tokens: seq<Token>) returns (i: nat)
    requires !CleanTokens(tokens)
    ensures i < |tokens| && CleanTokens(tokens[..i]) && tokens[i].Quoted? && !Clean(tokens[i].text)
  {
    i := 0;
    while tokens[i].Plain? || Clean(tokens[i].text)
      invariant i < |tokens| && !CleanTokens(tokens)
      invariant forall k :: 0 <= k < i && tokens[k].Quoted? ==> Clean(tokens[k].text)
      decreases |tokens| - i
    {
      i := i + 1;
    }
  }

  /** The first break of a rendered record lies inside a string literal. */
  lemma DirtyRenders(tokens: seq<Token>) returns (n: nat)
    requires PlainTokens(tokens) && !CleanTokens(tokens)
    ensures BreaksInside(Render(tokens), n)
  {
    var i := FirstDirtyToken(tokens);
    CleanRenders(tokens[..i]);
    n := BreaksBetween(Shown(tokens[..i]), tokens[i].text, Shown(tokens[i + 1..]));
    ShownAround(tokens, i);
  }

  lemma {:induction false} EscapeHasNoReturn(s: string)
    ensures '\r' !in Escape(s)
  {
    if s == "" {
    } else {
      EscapeHasNoReturn(s[1..]);
    }
  }

  lemma RenderHasNoReturn(tokens: seq<Token>)
    requires PlainTokens(tokens)
    ensures '\r' !in Render(tokens)
  {
    var parts := Shown(tokens);
    forall i | 0 <= i < |parts| ensures '\r' !in parts[i] {
      if tokens[i].Quoted? {
        EscapeHasNoReturn(tokens[i].text);
      }
    }
    JoinHasNoReturn(parts);
  }

  /*** Reading records back ***/

  /** The encoder's tokens for a record, and the decoder with `EventRecord.from_dict` behind it. */
  datatype Codec<!E> = Codec(tokens: E -> seq<Token>, parse: string -> Option<E>)

  function LineOf<E>(codec: Codec<E>, e: E): string {
    Render(codec.tokens(e))
  }

  /** A decoder accepts only texts with every string literal closed. */
  ghost predicate Strict<E>(codec: Codec<E>) {
    forall s: string :: codec.parse(s).Some? ==> Closed(s)
  }

  /** The decoder inverts the encoder on this record, whose text is a JSON object. */
  ghost predicate RoundTrips<E>(codec: Codec<E>, e: E) {
    && PlainTokens(codec.tokens(e))
    && "{" <= LineOf(codec, e)
    && codec.parse(LineOf(codec, e)) == Some(e)
  }

  ghost predicate AllRoundTrip<E>(codec: Codec<E>, events: seq<E>) {
    forall i :: 0 <= i < |events| ==> RoundTrips(codec, events[i])
  }

  /** No string of the record holds a character at which `splitlines` cuts and JSON does not escape. */
  predicate CleanEvent<E>(codec: Codec<E>, e: E) {
    CleanTokens(codec.tokens(e))
  }

  predicate AllClean<E>(codec: Codec<E>, events: seq<E>) {
    forall i :: 0 <= i < |events| ==> CleanEvent(codec, events[i])
  }

  function LinesOf<E>(codec: Codec<E>, events: seq<E>): (lines: seq<string>)
    ensures |lines| == |events| && forall i :: 0 <= i < |events| ==> lines[i] == LineOf(codec, events[i])
  {
    seq(|events|, i requires 0 <= i < |events| => LineOf(codec, events[i]))
  }

  /** The lines that recovery finds in the file that these records were appended to. */
  function FileLines<E>(codec: Codec<E>, events: seq<E>): seq<string> {
    ReadLines(Framed(LinesOf(codec, events)))
  }

  predicate Blank(line: string) {
    Strip(line) == ""
  }

  predicate BadLine<E>(codec: Codec<E>, line: string) {
    !Blank(line) && codec.parse(line).None?
  }

  /** The records of the lines that decode. */
  function Recovered<E>(codec: Codec<E>, lines: seq<string>): (events: seq<E>)
    ensures |events| <= |lines|
  {
    if lines == [] then []
    else
      var line := lines[|lines| - 1];
      Recovered(codec, lines[..|lines| - 1])
      + (if Blank(line) || codec.parse(line).None? then [] else [codec.parse(line).value])
  }

  lemma RecordLine<E>(codec: Codec<E>, e: E)
    requires RoundTrips(codec, e)
    ensures !Blank(LineOf(codec, e)) && !BadLine(codec, LineOf(codec, e)) && '\r' !in LineOf(codec, e)
    ensures NoBreak(LineOf(codec, e)) <==> CleanEvent(codec, e)
  {
    StripKeepsText(LineOf(codec, e));
    RenderHasNoReturn(codec.tokens(e));
    if CleanEvent(codec, e) {
      CleanRenders(codec.tokens(e));
    } else {
      var n := DirtyRenders(codec.tokens(e));
    }
  }

  lemma LinesOfSnoc<E>(codec: Codec<E>, init: seq<E>, last: E)
    ensures LinesOf(codec, init + [last]) == LinesOf(codec, init) + [LineOf(codec, last)]
  {
  }

  lemma RecoveredSnoc<E>(codec: Codec<E>, lines: seq<string>, line: string)
    ensures Recovered(codec, lines + [line])
      == Recovered(codec, lines) + (if Blank(line) || codec.parse(line).None? then [] else [codec.parse(line).value])
  {
    assert (lines + [line])[..|lines|] == lines;
  }

  lemma RecoversOneMore<E>(codec: Codec<E>, init: seq<E>, last: E)
    requires RoundTrips(codec, last)
    ensures Recovered(codec, LinesOf(codec, init)) == init ==>
      Recovered(codec, LinesOf(codec, init + [last])) == init + [last]
  {
    RecordLine(codec, last);
    RecoveredSnoc(codec, LinesOf(codec, init), LineOf(codec, last));
    LinesOfSnoc(codec, init, last);
  }

  lemma TakeOneMore<E>(events: seq<E>, n: nat)
    requires 0 < n <= |events|
    ensures events[..n] == events[..n - 1] + [events[n - 1]]
  {
  }

  lemma {:induction false} RecoversPrefix<E>(codec: Codec<E>, events: seq<E>, n: nat)
    requires n <= |events| && AllRoundTrip(codec, events)
    ensures Recovered(codec, LinesOf(codec, events[..n])) == events[..n]
  {
    if n == 0 {
    } else {
      RecoversPrefix(codec, events, n - 1);
      RecoversOneMore(codec, events[..n - 1], events[n - 1]);
      TakeOneMore(events, n);
    }
  }

  /** Recovery reads an appended journal back exactly when all its records are clean. */
  lemma FileReadsBackIff<E>(codec: Codec<E>, events: seq<E>)
    requires AllRoundTrip(codec, events)
    ensures FileLines(codec, events) == LinesOf(codec, events) <==> AllClean(codec, events)
    ensures AllClean(codec, events) ==> Recovered(codec, FileLines(codec, events)) == events
  {
    forall i | 0 <= i < |events| ensures NoBreak(LineOf(codec, events[i])) <==> CleanEvent(codec, events[i]) {
      RecordLine(codec, events[i]);
    }
    FramedReadsBackIff(LinesOf(codec, events));
    RecoversPrefix(codec, events, |events|);
    assert events[..|events|] == events;
  }

  predicate CleanBefore<E>(codec: Codec<E>, events: seq<E>, k: nat) {
    k <= |events| && forall i :: 0 <= i < k ==> CleanEvent(codec, events[i])
  }

  /** Before the first record that is not clean all lines are read back, and its own does not decode. */
  lemma DirtyRecordFails<E>(codec: Codec<E>, events: seq<E>, k: nat)
    requires AllRoundTrip(codec, events) && Strict(codec)
    requires k < |events| && CleanBefore(codec, events, k) && !CleanEvent(codec, events[k])
    ensures var lines := FileLines(codec, events);
      && |lines| > k && lines[..k] == LinesOf(codec, events)[..k]
      && !Blank(lines[k]) && codec.parse(lines[k]).None?
  {
    var lines := LinesOf(codec, events);
    forall i | 0 <= i < |events| ensures '\r' !in lines[i] && (i < k ==> NoBreak(lines[i])) {
      RecordLine(codec, events[i]);
    }
    FramedHasNoReturn(lines);
    NewlinesUnchanged(Framed(lines));
    var n := DirtyRenders(codec.tokens(events[k]));
    FramedCutAt(lines, k, n);
    var piece := lines[k][..n];
    assert n > 0 && piece[0] == lines[k][0] == '{';
    StripKeepsText(piece);
  }

  lemma FirstDirty<E>(codec: Codec<E>, events: seq<E>) returns (k: nat)
    requires !AllClean(codec, events)
    ensures k < |events| && CleanBefore(codec, events, k) && !CleanEvent(codec, events[k])
  {
    k := 0;
    while CleanEvent(codec, events[k])
      invariant k < |events| && CleanBefore(codec, events, k) && !AllClean(codec, events)
      decreases |events| - k
    {
      k := k + 1;
    }
  }

  /** What recovery finds behind `k` clean records: the next record's line if that is clean too, else
      a line that does not decode, and nothing only at the end. */
  lemma NextLine<E>(codec: Codec<E>, events: seq<E>, k: nat)
    requires Strict(codec) && AllRoundTrip(codec, events) && CleanBefore(codec, events, k)
    ensures k < |FileLines(codec, events)| <==> k < |events|
    ensures k < |events| ==> !Blank(FileLines(codec, events)[k])
    ensures k < |events| ==>
      codec.parse(FileLines(codec, events)[k]) == if CleanEvent(codec, events[k]) then Some(events[k]) else None
  {
    if AllClean(codec, events) {
      FileReadsBackIff(codec, events);
      if k < |events| {
        RecordLine(codec, events[k]);
      }
    } else {
      var d := FirstDirty(codec, events);
      DirtyRecordFails(codec, events, d);
      RecordLine(codec, events[k]);
      if k < d {
        assert FileLines(codec, events)[..d][k] == LinesOf(codec, events)[..d][k];
      }
    }
  }

  /** What lines that hold `events` up to the first that is not clean look like to a reader. */
  ghost predicate ReadsAs<E>(codec: Codec<E>, lines: seq<string>, events: seq<E>) {
    forall k: nat :: CleanBefore(codec, events, k) ==>
      && (k < |lines| <==> k < |events|)
      && (k < |lines| ==> !Blank(lines[k]))
      && (k < |lines| ==> codec.parse(lines[k]) == if CleanEvent(codec, events[k]) then Some(events[k]) else None)
  }

  lemma LineAt<E>(codec: Codec<E>, lines: seq<string>, events: seq<E>, k: nat)
    requires ReadsAs(codec, lines, events) && CleanBefore(codec, events, k) && k < |lines|
    ensures k < |events| && !Blank(lines[k])
    ensures codec.parse(lines[k]) == if CleanEvent(codec, events[k]) then Some(events[k]) else None
  {
  }

  lemma CleanOneMore<E>(codec: Codec<E>, events: seq<E>, k: nat)
    requires CleanBefore(codec, events, k) && k < |events| && CleanEvent(codec, events[k])
    ensures CleanBefore(codec, events, k + 1)
  {
  }

  lemma AllLinesRead<E>(codec: Codec<E>, lines: seq<string>, events: seq<E>)
    requires ReadsAs(codec, lines, events) && CleanBefore(codec, events, |lines|)
    ensures |lines| == |events| && AllClean(codec, events)
  {
  }

  lemma FileReadsAs<E>(codec: Codec<E>, events: seq<E>)
    requires Strict(codec) && AllRoundTrip(codec, events)
    ensures ReadsAs(codec, FileLines(codec, events), events)
  {
    forall k: nat | CleanBefore(codec, events, k) {
      NextLine(codec, events, k);
    }
  }

  /** What is asked of a codec can be met, clean record or not: here by the decoder that knows the
      line of one record only. */
  lemma CodecExists<E>(e: E, tokens: seq<Token>) returns (codec: Codec<E>)
    requires PlainTokens(tokens) && "{" <= Render(tokens)
    ensures codec.tokens(e) == tokens && RoundTrips(codec, e) && Strict(codec)
  {
    var line := Render(tokens);
    codec := Codec((x: E) => tokens, (s: string) => if s == line then Some(e) else None);
    var parts := Shown(tokens);
    forall i | 0 <= i < |parts| ensures Closed(parts[i]) {
      ScanShown(tokens[i]);
    }
    JoinOfClosed(parts);
  }

  /** A record that carries this file name is written as one line, and recovery cannot decode the
      first line it makes of it. */
  lemma SeparatedNameFails<E>(codec: Codec<E>, e: E)
    requires Quoted("a\U{2028}b") in codec.tokens(e) && RoundTrips(codec, e) && Strict(codec)
    ensures FileLines(codec, [e]) != LinesOf(codec, [e])
    ensures FileLines(codec, [e]) != [] && BadLine(codec, FileLines(codec, [e])[0])
  {
    var name := "a\U{2028}b";
    assert IsRawBreak(name[1]);
    NotCleanEvent(codec, e, name);
    RecordLine(codec, e);
    DirtyRecordFails(codec, [e], 0);
    assert LinesOf(codec, [e])[0] == LineOf(codec, e);
  }

  lemma NotCleanEvent<E>(codec: Codec<E>, e: E, text: string)
    requires Quoted(text) in codec.tokens(e) && !Clean(text)
    ensures !CleanEvent(codec, e)
  {
    var i :| 0 <= i < |codec.tokens(e)| && codec.tokens(e)[i] == Quoted(text);
  }
}
