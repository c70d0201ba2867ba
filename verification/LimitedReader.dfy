/** The byte-limited line reader of the evidence importer, and the CSV records it feeds. */
module LimitedReader {
  type Byte = b: nat | b < 256
  type Bytes = seq<Byte>

  const NEWLINE: Byte := 10

  // ---------------------------------------------------------------- reference: lines and records of a file

  /** The first line of `s`, with its newline if it has one. */
  function FirstLine(s: Bytes): (line: Bytes)
    ensures line <= s && (s != [] ==> line != [])
  {
    if s == [] then [] else if s[0] == NEWLINE then [NEWLINE] else [s[0]] + FirstLine(s[1..])
  }

  /** A line goes up to and including the first newline, or to the end of the text. */
  lemma {:induction false} LineEndsAtNewline(s: Bytes)
    requires s != []
    ensures var line := FirstLine(s);
            NEWLINE !in line[..|line| - 1] && (line[|line| - 1] == NEWLINE || line == s)
  {
    if s[0] != NEWLINE && |s| > 1 {
      LineEndsAtNewline(s[1..]);
      var rest := FirstLine(s[1..]);
      assert FirstLine(s)[..|rest|] == [s[0]] + rest[..|rest| - 1];
      assert [s[0]] + s[1..] == s;
    }
  }

  function Size(lines: seq<Bytes>): nat {
    if lines == [] then 0 else Size(lines[..|lines| - 1]) + |lines[|lines| - 1]|
  }

  function Concat(lines: seq<Bytes>): Bytes {
    if lines == [] then [] else Concat(lines[..|lines| - 1]) + lines[|lines| - 1]
  }

  /** The record that starts with `lines` and goes on in `s`; `more` says whether a record that is not empty is still
      open, as one with an open quotation is. */
  function RecordFrom(s: Bytes, more: seq<Bytes> -> bool, lines: seq<Bytes>): seq<Bytes>
    decreases |s|
  {
    if s == [] then lines
    else
      var line := FirstLine(s);
      if more(lines + [line]) then RecordFrom(s[|line|..], more, lines + [line]) else lines + [line]
  }

  lemma {:induction false} RecordGrows(s: Bytes, more: seq<Bytes> -> bool, lines: seq<Bytes>)
    ensures var record := RecordFrom(s, more, lines);
            && lines <= record && Size(lines) <= Size(record) <= Size(lines) + |s|
            && (s != [] ==> lines + [FirstLine(s)] <= record && Size(record) > Size(lines))
    decreases |s|
  {
    if s != [] {
      var line := FirstLine(s);
      SizeAppend(lines, line);
      if more(lines + [line]) { RecordGrows(s[|line|..], more, lines + [line]); }
    }
  }

  lemma SizeAppend(lines: seq<Bytes>, line: Bytes)
    ensures Size(lines + [line]) == Size(lines) + |line|
  {
  }

  function Records(s: Bytes, more: seq<Bytes> -> bool): seq<seq<Bytes>>
    decreases |s|
  {
    if s == [] then [] else
      var record := RecordFrom(s, more, []);
      RecordGrows(s, more, []);
      [record] + Records(s[Size(record)..], more)
  }

  // ---------------------------------------------------------------- the reader

  datatype Error = FileLimit | TotalLimit | RecordLimit | NotUtf8 | Empty

  datatype Pulled = End | Line(bytes: Bytes) | Failed(error: Error)

  function Min(a: int, b: int): int { if a <= b then a else b }
  function Max(a: int, b: int): int { if a >= b then a else b }

  /** `readline` with a size: the first line, cut at the size. */
  function ReadLine(s: Bytes, size: nat): Bytes {
    var line := FirstLine(s);
    if |line| <= size then line else line[..size]
  }

  /** The generator over one metric file, with the variables it shares with its caller. */
  class Reader {
    const data: Bytes
    const maxFile: nat
    const maxTotal: nat
    const earlier: nat
    var position: nat
    var inputBytes: int
    var totalInputBytes: int
    var recordBytesRemaining: int
    var hashed: Bytes

    predicate Valid()
      reads this
    {
      && position <= |data| && inputBytes == position && totalInputBytes == earlier + position
      && hashed == data[..position]
      && inputBytes <= maxFile && totalInputBytes <= maxTotal && 0 <= recordBytesRemaining
    }

    constructor (data: Bytes, maxFile: nat, maxTotal: nat, maxHeader: nat, earlier: nat)
      requires earlier <= maxTotal
      ensures Valid() && position == 0 && recordBytesRemaining == maxHeader
      ensures this.data == data && this.maxFile == maxFile && this.maxTotal == maxTotal && this.earlier == earlier
    {
      this.data, this.maxFile, this.maxTotal, this.earlier := data, maxFile, maxTotal, earlier;
      position, inputBytes, totalInputBytes, recordBytesRemaining, hashed := 0, 0, earlier, maxHeader, [];
    }

    /** How much may still be read before one of the three limits is exceeded. */
    function Budget(): int
      reads this
    {
      Min(recordBytesRemaining, Min(maxFile - inputBytes, maxTotal - totalInputBytes))
    }

    function Rest(): Bytes
      requires position <= |data|
      reads this
    {
      data[position..]
    }

    /** One turn of `decoded_lines`. What it yields is a whole line. It fails exactly if the next line does not fit into
        some limit, which it finds out after one byte too many, or is not UTF-8. */
    method NextLine(decodable: Bytes -> bool) returns (r: Pulled)
      requires Valid()
      modifies this
      ensures r.End? <==> old(Rest()) == []
      ensures r.End? ==> Valid() && position == old(position) && recordBytesRemaining == old(recordBytesRemaining)
      ensures r.Line? <==>
                old(Rest()) != [] && |FirstLine(old(Rest()))| <= old(Budget()) && decodable(FirstLine(old(Rest())))
      ensures r.Line? ==> Valid() && r.bytes == FirstLine(old(Rest())) && Rest() == old(Rest())[|r.bytes|..]
      ensures r.Line? ==> recordBytesRemaining == old(recordBytesRemaining) - |r.bytes|
      ensures r == Failed(NotUtf8) ==> |FirstLine(old(Rest()))| <= old(Budget())
      ensures r.Failed? && r.error != NotUtf8 ==>
               position == old(position) + old(Budget()) + 1 && r.error == old(Exhausted())
    {
      var readLimit := Min(recordBytesRemaining, Min(maxFile - inputBytes, maxTotal - totalInputBytes)) + 1;
      var rawLine := ReadLine(Rest(), Max(1, readLimit));
      if rawLine == [] { return End; }
      position := position + |rawLine|;
      inputBytes := inputBytes + |rawLine|;
      totalInputBytes := totalInputBytes + |rawLine|;
      recordBytesRemaining := recordBytesRemaining - |rawLine|;
      if inputBytes > maxFile { return Failed(FileLimit); }
      if totalInputBytes > maxTotal { return Failed(TotalLimit); }
      if recordBytesRemaining < 0 { return Failed(RecordLimit); }
      hashed := hashed + rawLine;
      if !decodable(rawLine) { return Failed(NotUtf8); }
      r := Line(rawLine);
    }

    /** The limit that is the first to give out. */
    function Exhausted(): Error
      reads this
    {
      if maxFile - inputBytes == Budget() then FileLimit
      else if maxTotal - totalInputBytes == Budget() then TotalLimit else RecordLimit
    }

    /** A line more for `lines`, which are to become `record`. */
    method PullLine(more: seq<Bytes> -> bool, decodable: Bytes -> bool, lines: seq<Bytes>,
                    ghost record: seq<Bytes>) returns (r: Pulled)
      requires Valid() && RecordFrom(Rest(), more, lines) == record && AllDecodable(lines, decodable)
      modifies this
      ensures r.End? <==> old(Rest()) == []
      ensures r.End? ==>
                Valid() && lines == record && position == old(position) &&
                recordBytesRemaining == old(recordBytesRemaining)
      ensures r.Failed? ==> Size(record) > Size(lines) + old(Budget()) || !AllDecodable(record, decodable)
      ensures r.Line? ==>
                Valid() && r.bytes != [] && AllDecodable(lines + [r.bytes], decodable) &&
                Size(lines + [r.bytes]) == Size(lines) + |r.bytes|
      ensures r.Line? ==>
                position == old(position) + |r.bytes| && recordBytesRemaining == old(recordBytesRemaining) - |r.bytes|
      ensures r.Line? ==>
                if more(lines + [r.bytes]) then RecordFrom(Rest(), more, lines + [r.bytes]) == record
                else lines + [r.bytes] == record
    {
      ghost var rest := Rest();
      r := NextLine(decodable);
      if rest != [] {
        LineOfRecord(rest, more, lines);
        SizeAppend(lines, FirstLine(rest));
      }
    }

    /** The lines of the next record, pulled until it is complete or the file ends. */
    method PullRecord(more: seq<Bytes> -> bool, decodable: Bytes -> bool) returns (r: Read)
      requires Valid()
      modifies this
      ensures r.Stop? <==> old(Rest()) == []
      ensures r.Stop? ==> Valid() && position == old(position)
      ensures r.Broken? ==> !RecordFits(RecordFrom(old(Rest()), more, []), old(Budget()), decodable)
      ensures r.Record? ==> Valid() && r.lines == RecordFrom(old(Rest()), more, []) && AllDecodable(r.lines, decodable)
      ensures r.Record? ==>
                position == old(position) + Size(r.lines) &&
                recordBytesRemaining == old(recordBytesRemaining) - Size(r.lines)
    {
      var lines: seq<Bytes> := [];
      ghost var record := RecordFrom(Rest(), more, []);
      while true
        invariant Valid() && position == old(position) + Size(lines) &&
                  recordBytesRemaining == old(recordBytesRemaining) - Size(lines)
        invariant RecordFrom(Rest(), more, lines) == record && AllDecodable(lines, decodable)
        invariant lines != [] ==> old(Rest()) != []
        decreases |data| - position
      {
        var next := PullLine(more, decodable, lines, record);
        match next {
          case End =>
            return if lines == [] then Stop else Record(lines);
          case Failed(error) =>
            return Broken(error);
          case Line(line) =>
            lines := lines + [line];
            if !more(lines) { return Record(lines); }
        }
      }
    }

    /** `next(reader)`. */
    method ReadRecord(more: seq<Bytes> -> bool, decodable: Bytes -> bool) returns (r: Read)
      requires Valid()
      modifies this
      ensures r.Stop? <==> old(Rest()) == []
      ensures r.Stop? ==> Valid() && position == old(position)
      ensures r.Record? <==>
                old(Rest()) != [] && RecordFits(RecordFrom(old(Rest()), more, []), old(Budget()), decodable)
      ensures r.Record? ==>
                Valid() && r.lines == RecordFrom(old(Rest()), more, []) && 0 < Size(r.lines) <= |old(Rest())|
      ensures r.Record? ==> Rest() == old(Rest())[Size(r.lines)..]
    {
      RecordGrows(Rest(), more, []);
      r := PullRecord(more, decodable);
    }

    /** The loop over the records after the header. Each gets the full record limit again. */
    method ReadRecords(more: seq<Bytes> -> bool, decodable: Bytes -> bool, maxRecord: nat) returns (r: Contents)
      requires Valid()
      modifies this
      ensures r.Complete? <==>
                |data| <= maxFile && earlier + |data| <= maxTotal &&
                AllFit(Records(old(Rest()), more), maxRecord, decodable)
      ensures r.Complete? ==>
                r.records == Records(old(Rest()), more) && hashed == data && totalInputBytes == earlier + |data|
    {
      var records: seq<seq<Bytes>> := [];
      ghost var all := Records(Rest(), more);
      while true
        invariant Valid() && records + Records(Rest(), more) == all && AllFit(records, maxRecord, decodable)
        decreases |data| - position
      {
        var next := NextRecord(more, decodable, maxRecord, all, records);
        match next {
          case Stop =>
            return Complete(records);
          case Broken(error) =>
            return Incomplete(error);
          case Record(lines) =>
            records := records + [lines];
        }
      }
    }

    /** One turn of that loop, after `records`, when the records are to be `all`. */
    method NextRecord(more: seq<Bytes> -> bool, decodable: Bytes -> bool, maxRecord: nat,
                      ghost all: seq<seq<Bytes>>, ghost records: seq<seq<Bytes>>) returns (r: Read)
      requires Valid() && records + Records(Rest(), more) == all && AllFit(records, maxRecord, decodable)
      modifies this
      ensures r.Stop? ==> Valid() && position == |data| && records == all
      ensures r.Broken? ==> |data| > maxFile || earlier + |data| > maxTotal || !AllFit(all, maxRecord, decodable)
      ensures r.Record? ==> Valid() && position > old(position) && AllFit(records + [r.lines], maxRecord, decodable)
      ensures r.Record? ==> records + [r.lines] + Records(Rest(), more) == all
    {
      recordBytesRemaining := maxRecord;
      ghost var rest := Rest();
      r := ReadRecord(more, decodable);
      if r.Record? {
        JoinAssociates(records, [r.lines], Records(Rest(), more));
      } else if r.Broken? {
        RecordGrows(rest, more, []);
        assert all[|records|] == RecordFrom(rest, more, []);
      }
    }

    /** Reading one file: the header, then the records. It succeeds exactly if the file is not empty, is within the file
        limit and, with what was read before, within the total limit, its header and each of its records are within
        theirs, and every line is UTF-8. The digest is then that of the whole file. */
    method ReadFile(more: seq<Bytes> -> bool, decodable: Bytes -> bool, maxRecord: nat) returns (r: Contents)
      requires Valid() && position == 0
      modifies this
      ensures r.Complete? <==>
        && data != [] && |data| <= maxFile && earlier + |data| <= maxTotal
        && RecordFits(Records(data, more)[0], old(recordBytesRemaining), decodable)
        && AllFit(Records(data, more)[1..], maxRecord, decodable)
      ensures r.Complete? ==> r.records == Records(data, more) && hashed == data && totalInputBytes == earlier + |data|
    {
      assert Rest() == data;
      RecordGrows(data, more, []);
      var header := ReadRecord(more, decodable);
      match header {
        case Stop =>
          r := Incomplete(Empty);
        case Broken(error) =>
          r := Incomplete(error);
        case Record(lines) =>
          r := ReadRecords(more, decodable, maxRecord);
          if r.Complete? { r := Complete([lines] + r.records); }
      }
    }
  }

  datatype Contents = Complete(records: seq<seq<Bytes>>) | Incomplete(error: Error)

  ghost predicate AllFit(records: seq<seq<Bytes>>, maximum: nat, decodable: Bytes -> bool) {
    forall i :: 0 <= i < |records| ==> RecordFits(records[i], maximum, decodable)
  }

  /** The bytes of a list of records. */
  function Flat(records: seq<seq<Bytes>>): Bytes {
    if records == [] then [] else Concat(records[0]) + Flat(records[1..])
  }

  lemma ConcatAppend(lines: seq<Bytes>, line: Bytes)
    ensures Concat(lines + [line]) == Concat(lines) + line
  {
  }

  lemma TakenTwice(s: Bytes, k: nat, m: nat)
    requires k + m <= |s|
    ensures s[..k] + s[k..][..m] == s[..k + m]
  {
  }

  lemma JoinAssociates<T>(a: seq<T>, b: seq<T>, c: seq<T>)
    ensures (a + b) + c == a + (b + c)
  {
  }

  lemma {:induction false} RecordIsPrefix(s: Bytes, more: seq<Bytes> -> bool, lines: seq<Bytes>, n: int)
    requires n == Size(RecordFrom(s, more, lines)) - Size(lines)
    ensures 0 <= n <= |s| && Concat(RecordFrom(s, more, lines)) == Concat(lines) + s[..n]
    decreases |s|
  {
    if s == [] {
      assert Concat(lines) + s[..0] == Concat(lines);
    } else {
      var line := FirstLine(s);
      SizeAppend(lines, line);
      ConcatAppend(lines, line);
      assert s[..|line|] == line;
      if more(lines + [line]) {
        var m := n - |line|;
        RecordIsPrefix(s[|line|..], more, lines + [line], m);
        TakenTwice(s, |line|, m);
        JoinAssociates(Concat(lines), line, s[|line|..][..m]);
      }
    }
  }

  lemma FlatCons(record: seq<Bytes>, records: seq<seq<Bytes>>)
    ensures Flat([record] + records) == Concat(record) + Flat(records)
  {
  }

  /** Nothing is lost and nothing is read twice. */
  lemma {:induction false} RecordsAreTheFile(s: Bytes, more: seq<Bytes> -> bool)
    ensures Flat(Records(s, more)) == s
    decreases |s|
  {
    if s != [] {
      var record := RecordFrom(s, more, []);
      var n := Size(record);
      RecordGrows(s, more, []);
      RecordIsPrefix(s, more, [], n);
      assert Concat([]) + s[..n] == s[..n];
      RecordsAreTheFile(s[n..], more);
      FlatCons(record, Records(s[n..], more));
    }
  }

  datatype Read = Stop | Record(lines: seq<Bytes>) | Broken(error: Error)

  ghost predicate RecordFits(record: seq<Bytes>, maximum: int, decodable: Bytes -> bool) {
    Size(record) <= maximum && AllDecodable(record, decodable)
  }

  ghost predicate AllDecodable(lines: seq<Bytes>, decodable: Bytes -> bool) {
    forall line :: line in lines ==> decodable(line)
  }

  /** The next line belongs to the record. */
  lemma LineOfRecord(rest: Bytes, more: seq<Bytes> -> bool, lines: seq<Bytes>)
    requires rest != []
    ensures var record := RecordFrom(rest, more, lines);
            FirstLine(rest) in record && Size(record) >= Size(lines) + |FirstLine(rest)|
  {
    var record := RecordFrom(rest, more, lines);
    RecordGrows(rest, more, lines);
    SizeOfPrefix(lines + [FirstLine(rest)], record);
    SizeAppend(lines, FirstLine(rest));
    assert record[|lines|] == (lines + [FirstLine(rest)])[|lines|];
  }

  lemma {:induction false} SizeOfPrefix(a: seq<Bytes>, b: seq<Bytes>)
    requires a <= b
    ensures Size(a) <= Size(b)
  {
    if |a| < |b| {
      SizeOfPrefix(a, b[..|b| - 1]);
    } else {
      assert a == b;
    }
  }
}
