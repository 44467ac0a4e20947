/** The names of log files: level, date and sequence number. */
module LogNames {
  import opened Seqs
  import Decimal

  const LEVELS: set<string> := {"debug", "info", "warn", "err"}
  const SUFFIX := ".jsonl"

  datatype FileName = FileName(level: string, date: string, sequence: nat)

  predicate IsDate(s: string) {
    |s| == 8 && Decimal.AllDigits(s)
  }

  /** The file-name pattern and the sequence number, which must fit 64 bits. */
  function ParseName(name: string): Option<FileName> {
    var parts := Split(name, '_');
    if |parts| != 3 || parts[0] !in LEVELS || !IsDate(parts[1]) then None
    else if |parts[2]| < |SUFFIX| || parts[2][|parts[2]| - |SUFFIX|..] != SUFFIX then None
    else
      var sequence := Decimal.ParseUint(parts[2][..|parts[2]| - |SUFFIX|]);
      if sequence.None? then None else Some(FileName(parts[0], parts[1], sequence.value))
  }

  /** The name is written from these parts; the number may have leading zeros. */
  predicate Written(name: string, level: string, date: string, digits: string) {
    && level in LEVELS && IsDate(date) && Decimal.AllDigits(digits) && Decimal.Number(digits) < Decimal.UINT64
    && name == level + ['_'] + (date + ['_'] + (digits + SUFFIX))
  }

  lemma DigitsAreNoUnderscore(s: string)
    requires Decimal.AllDigits(s)
    ensures '_' !in s
  {
  }

  lemma WrittenSplits(name: string, level: string, date: string, digits: string)
    requires Written(name, level, date, digits)
    ensures Split(name, '_') == [level, date, digits + SUFFIX]
  {
    DigitsAreNoUnderscore(date);
    DigitsAreNoUnderscore(digits);
    SplitConcat(level, '_', date + ['_'] + (digits + SUFFIX));
    SplitConcat(date, '_', digits + SUFFIX);
    SplitNone(level, '_');
    SplitNone(date, '_');
    SplitNone(digits + SUFFIX, '_');
  }

  lemma JoinThree(parts: seq<string>)
    requires |parts| == 3
    ensures Join(parts, '_') == parts[0] + ['_'] + (parts[1] + ['_'] + parts[2])
  {
    assert parts[1..][1..] == [parts[2]];
    assert Join(parts[1..], '_') == parts[1] + ['_'] + Join(parts[1..][1..], '_');
  }

  lemma SplitIsWritten(name: string) returns (digits: string)
    requires ParseName(name).Some?
    ensures var f := ParseName(name).value;
      Written(name, f.level, f.date, digits) && Decimal.Number(digits) == f.sequence
  {
    var parts := Split(name, '_');
    digits := parts[2][..|parts[2]| - |SUFFIX|];
    JoinSplit(name, '_');
    JoinThree(parts);
    assert parts[2] == digits + SUFFIX;
  }

  /** A name is read as a level, date and number if and only if it is written from them. */
  lemma NamesAreRead(name: string, f: FileName)
    ensures ParseName(name) == Some(f)
       <==> exists digits :: Written(name, f.level, f.date, digits) && Decimal.Number(digits) == f.sequence
  {
    if ParseName(name) == Some(f) {
      var digits := SplitIsWritten(name);
    }
    if exists digits :: Written(name, f.level, f.date, digits) && Decimal.Number(digits) == f.sequence {
      var digits :| Written(name, f.level, f.date, digits) && Decimal.Number(digits) == f.sequence;
      WrittenSplits(name, f.level, f.date, digits);
      assert (digits + SUFFIX)[..|digits|] == digits && (digits + SUFFIX)[|digits|..] == SUFFIX;
    }
  }
}
