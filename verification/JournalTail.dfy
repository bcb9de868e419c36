/** `EventWriter._read_last_event`: finding the last line of a journal by reading it backwards. */
module JournalTail {
  import opened Wrappers
  import opened Bytes
  import opened Texts

  const NEWLINE: byte := 10

  /** `stream.readline()`: up to and including the first newline. */
  function ReadLine(file: bytes): bytes {
    if file == [] then []
    else if file[0] == NEWLINE then [NEWLINE]
    else [file[0]] + ReadLine(file[1..])
  }

  lemma {:induction false} ReadLineWhole(file: bytes)
    requires forall i :: 0 <= i < |file| - 1 ==> file[i] != NEWLINE
    ensures ReadLine(file) == file
  {
    if file == [] {
    } else {
      if file[0] == NEWLINE {
        assert file == [NEWLINE];
      } else {
        ReadLineWhole(file[1..]);
      }
    }
  }

  /** The last line starts at `start`: a newline or the beginning of the file precedes it, and
      it holds no newline except possibly as its last byte. */
  predicate LastLineStartsAt(file: bytes, start: nat) {
    && start < |file|
    && (start == 0 || file[start - 1] == NEWLINE)
    && forall i :: start <= i < |file| - 1 ==> file[i] != NEWLINE
  }

  type Decoder = bytes -> Option<string>

  /** The stripped text of a line, if it decodes; none if nothing is left of it. */
  function Stripped(decoded: Option<string>): Result<Option<string>> {
    match decoded
    case None => Err(ValueError)
    case Some(text) => Ok(if Strip(text) == "" then None else Some(Strip(text)))
  }

  method ReadLastLine(file: bytes, decode: Decoder) returns (line: Result<Option<string>>)
    ensures file == [] ==> line == Ok(None)
    ensures file != [] ==> exists start: nat :: LastLineStartsAt(file, start) && line == Stripped(decode(file[start..]))
  {
    if file == [] {
      return Ok(None);
    }
    var end := |file|;
    var position, start := end - 1, 0;
    while position >= 0
      invariant -1 <= position <= end - 1 && start == 0
      invariant forall i :: position < i < end - 1 ==> file[i] != NEWLINE
    {
      if file[position] == NEWLINE && position < end - 1 {
        start := position + 1;
        break;
      }
      position := position - 1;
    }
    assert LastLineStartsAt(file, start);
    ReadLineWhole(file[start..]);
    return Stripped(decode(ReadLine(file[start..])));
  }

  /** A journal file: every record is one line. */
  function Journal(lines: seq<bytes>): (file: bytes) {
    if lines == [] then [] else Journal(lines[..|lines| - 1]) + lines[|lines| - 1] + [NEWLINE]
  }

  predicate OneLine(line: bytes) {
    forall i :: 0 <= i < |line| ==> line[i] != NEWLINE
  }

  lemma StripNewline(text: string)
    requires Trimmed(text)
    ensures Strip(text + "\n") == text
  {
    assert (text + "\n")[..|text|] == text;
    assert StripRight(text + "\n") == StripRight(text) == text;
  }

  lemma {:induction false} JournalEndsInNewline(lines: seq<bytes>)
    ensures Journal(lines) == [] || Journal(lines)[|Journal(lines)| - 1] == NEWLINE
  {
  }

  /** Behind text that is empty or ends in a newline, only the last line can start. */
  lemma StartIsAfter(before: bytes, last: bytes, start: nat)
    requires before == [] || before[|before| - 1] == NEWLINE
    requires OneLine(last) && LastLineStartsAt(before + (last + [NEWLINE]), start)
    ensures start == |before|
  {
    var file, n := before + (last + [NEWLINE]), |before|;
    assert n > 0 ==> file[n - 1] == before[n - 1] == NEWLINE;
    assert forall k :: n <= k < n + |last| ==> file[k] == last[k - n];
  }

  lemma LastLineOfJournal(lines: seq<bytes>, start: nat)
    requires lines != [] && OneLine(lines[|lines| - 1])
    requires LastLineStartsAt(Journal(lines), start)
    ensures Journal(lines)[start..] == lines[|lines| - 1] + [NEWLINE]
  {
    var file, before, last := Journal(lines), Journal(lines[..|lines| - 1]), lines[|lines| - 1];
    assert file == before + (last + [NEWLINE]);
    JournalEndsInNewline(lines[..|lines| - 1]);
    StartIsAfter(before, last, start);
    assert file[|before|..] == last + [NEWLINE];
  }

  /** The bytes of a record's line, without its newline, and the text that they decode to. */
  predicate RecordLine(line: bytes, text: string, decode: Decoder) {
    OneLine(line) && Trimmed(text) && decode(line + [NEWLINE]) == Some(text + "\n")
  }

  /** On a journal of any number of records the backward scan returns exactly the last one. */
  method ReadLastOfJournal(lines: seq<bytes>, texts: seq<string>, decode: Decoder)
    returns (line: Result<Option<string>>)
    requires |lines| == |texts| && forall i :: 0 <= i < |lines| ==> RecordLine(lines[i], texts[i], decode)
    ensures line == Ok(if lines == [] then None else Some(texts[|texts| - 1]))
  {
    line := ReadLastLine(Journal(lines), decode);
    if lines != [] {
      var last := |lines| - 1;
      var start: nat :| LastLineStartsAt(Journal(lines), start) && line == Stripped(decode(Journal(lines)[start..]));
      assert RecordLine(lines[last], texts[last], decode);
      LastLineOfJournal(lines, start);
      StripNewline(texts[last]);
    }
  }
}
