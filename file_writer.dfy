/**
 * The log-file writer's line buffer, its CSV layout and the log-file name search
 * (src/logger/fileWriter.c).
 *
 * Text is collected in one file-static buffer of FILE_BUFFER_SIZE characters and
 * handed to FatFs's f_puts whenever it fills up and at the end of every line.
 * f_puts is modelled as appending the C string in the buffer to a ghost `written`
 * sequence, the file's contents. The modp number formatters and decodeSampleRate
 * are parameters (a `Formatters` value); f_open is a parameter of the name search.
 */
module FileWriter {
  import opened Wrappers

  const FILE_BUFFER_SIZE: int := 256
  const FILENAME_LEN: int := 13
  const MAX_LOG_FILE_INDEX: int := 99999
  const WRITE_SUCCESS: int := 0
  /** EOF. */
  const WRITE_FAIL: int := -1
  /** openNextLogfile's result once every index is taken. */
  const NO_FREE_LOG_NAME: int := -2

  /** A C string as the text before its first NUL. */
  function CStr(s: string): (r: string)
    ensures |r| <= |s| && r == s[..|r|] && '\0' !in r
    ensures |r| < |s| ==> s[|r|] == '\0'
  {
    if s == [] || s[0] == '\0' then "" else [s[0]] + CStr(s[1..])
  }

  /** Text with no NUL is its own C string. */
  lemma {:induction false} CStrOfPlainText(s: string)
    requires '\0' !in s
    ensures CStr(s) == s
  {
    if s != [] {
      assert '\0' !in s[1..];
      CStrOfPlainText(s[1..]);
    }
  }

  /** A NUL at offset k ends the C string there. */
  lemma {:induction false} CStrStopsAtNul(s: string, k: nat)
    requires k < |s| && s[k] == '\0' && '\0' !in s[..k]
    ensures CStr(s) == s[..k]
  {
    if k > 0 {
      assert s[1..][..k - 1] == s[1..k];
      assert '\0' !in s[1..k];
      CStrStopsAtNul(s[1..], k - 1);
    }
  }

  /**
   * The FileBuffer struct with room for its terminator: FILE_BUFFER_SIZE characters
   * and one more for the NUL that ends a full buffer.
   */
  class FileBuffer {
    const buffer: array<char>
    var index: int
    /** Everything f_puts has been given, in order: the log file's contents. */
    ghost var written: string
    /** The text in buffer[..index], not yet handed to f_puts. */
    ghost var pending: string

    ghost predicate Valid()
      reads this, buffer
    {
      && buffer.Length == FILE_BUFFER_SIZE + 1
      && 0 <= index < FILE_BUFFER_SIZE
      && |pending| == index
      && buffer[index] == '\0'
      && forall k :: 0 <= k < index ==> buffer[k] == pending[k] && pending[k] != '\0'
    }

    /** What the file holds once the buffer is flushed. */
    ghost function Stream(): string
      reads this
    {
      written + pending
    }

    /** The static initialiser `{"", 0}`. */
    constructor ()
      ensures Valid() && fresh(buffer)
      ensures written == "" && pending == ""
    {
      buffer := new char[FILE_BUFFER_SIZE + 1](_ => '\0');
      index := 0;
      written := "";
      pending := "";
    }

    /**
     * writeFileBuffer: f_puts of the C string in the buffer, then an empty buffer.
     * The result is f_puts's count of characters written.
     */
    method WriteFileBuffer() returns (rc: int)
      requires buffer.Length == FILE_BUFFER_SIZE + 1
      modifies this, buffer
      ensures Valid() && pending == ""
      ensures written == old(written) + CStr(old(buffer[..]))
      ensures rc == |CStr(old(buffer[..]))|
      ensures buffer[..] == old(buffer[..])[0 := '\0']
    {
      var text := CStr(buffer[..]);
      written := written + text;
      rc := |text|;
      index := 0;
      pending := "";
      buffer[0] := '\0';
    }

    /**
     * appendFileBuffer: copies the C string `data` behind the buffered text,
     * handing the buffer to f_puts each time it holds FILE_BUFFER_SIZE characters.
     * Nothing is lost, the buffer keeps its terminator, and the file only ever grows
     * by whole buffers.
     */
    method Append(data: string)
      requires Valid()
      modifies this, buffer
      ensures Valid()
      ensures Stream() == old(Stream()) + CStr(data)
      ensures |pending| == (|old(pending)| + |CStr(data)|) % FILE_BUFFER_SIZE
      ensures (|written| - |old(written)|) % FILE_BUFFER_SIZE == 0
    {
      ghost var start := Stream();
      var idx := index;
      var p := 0;
      while p < |data| && data[p] != '\0'
        invariant buffer.Length == FILE_BUFFER_SIZE + 1
        invariant 0 <= p <= |data| && 0 <= idx < FILE_BUFFER_SIZE
        invariant '\0' !in data[..p]
        invariant |pending| == idx
        invariant forall k :: 0 <= k < idx ==> buffer[k] == pending[k] && pending[k] != '\0'
        invariant written + pending == start + data[..p]
        invariant idx == (|old(pending)| + p) % FILE_BUFFER_SIZE
      {
        assert data[..p + 1] == data[..p] + [data[p]];
        idx := StoreChar(idx, data[p]);
        ModStep(|old(pending)| + p);
        p := p + 1;
      }
      buffer[idx] := '\0';
      index := idx;
      if p < |data| {
        CStrStopsAtNul(data, p);
      } else {
        assert data[..p] == data;
        CStrOfPlainText(data);
      }
      WholeBuffers(|old(written)|, |old(pending)|, |written|, |pending|, p);
    }

    /**
     * One pass of appendFileBuffer's copy loop: the character goes in at `idx`, and a
     * buffer that is now full is flushed. The result is the next free offset.
     */
    method StoreChar(idx: int, c: char) returns (next: int)
      requires buffer.Length == FILE_BUFFER_SIZE + 1 && 0 <= idx < FILE_BUFFER_SIZE && c != '\0'
      requires |pending| == idx
      requires forall k :: 0 <= k < idx ==> buffer[k] == pending[k] && pending[k] != '\0'
      modifies this, buffer
      ensures 0 <= next < FILE_BUFFER_SIZE && next == (idx + 1) % FILE_BUFFER_SIZE
      ensures |pending| == next
      ensures forall k :: 0 <= k < next ==> buffer[k] == pending[k] && pending[k] != '\0'
      ensures written + pending == old(written + pending) + [c]
    {
      buffer[idx] := c;
      pending := pending + [c];
      next := idx + 1;
      if next >= FILE_BUFFER_SIZE {
        FlushFull();
        next := index;
      }
    }

    /** appendFileBuffer's flush of a full buffer: terminate it, hand it to f_puts, start again. */
    method FlushFull()
      requires buffer.Length == FILE_BUFFER_SIZE + 1 && |pending| == FILE_BUFFER_SIZE
      requires forall k :: 0 <= k < FILE_BUFFER_SIZE ==> buffer[k] == pending[k] && pending[k] != '\0'
      modifies this, buffer
      ensures Valid() && index == 0 && pending == ""
      ensures written == old(written) + old(pending)
    {
      buffer[FILE_BUFFER_SIZE] := '\0';
      assert buffer[..][..FILE_BUFFER_SIZE] == pending;
      CStrStopsAtNul(buffer[..], FILE_BUFFER_SIZE);
      var _ := WriteFileBuffer();
    }

    /** appendQuotedString: the string between two double quotes. */
    method AppendQuotedString(s: string)
      requires Valid()
      modifies this, buffer
      ensures Valid()
      ensures Stream() == old(Stream()) + Quoted(s)
    {
      Append("\"");
      Append(s);
      Append("\"");
      CStrOfPlainText("\"");
    }

    /** One pass of writeHeaders's loop: the separator, then the channel's field. */
    method AppendHeaderChannel(separator: string, cfg: ChannelConfig, fmt: Formatters)
      requires Valid() && (separator == "" || separator == ",")
      modifies this, buffer
      ensures Valid()
      ensures Stream() == old(Stream()) + separator + HeaderField(cfg, fmt)
    {
      CStrOfPlainText(separator);
      Append(separator);
      AppendAll(HeaderParts(cfg, fmt));
      HeaderPartsLayout(cfg, fmt);
    }

    /**
     * appendFileBuffer of each string in turn: the calls writeHeaders makes for one
     * channel (appendQuotedString being three of them).
     */
    method AppendAll(parts: seq<string>)
      requires Valid()
      modifies this, buffer
      ensures Valid()
      ensures Stream() == old(Stream()) + Joined(parts)
    {
      ghost var start := Stream();
      var i := 0;
      while i < |parts|
        invariant Valid() && i <= |parts|
        invariant Stream() == start + Joined(parts[..i])
      {
        Append(parts[i]);
        assert parts[..i + 1][..i] == parts[..i];
        i := i + 1;
      }
      assert parts[..i] == parts;
    }

    /** writeHeaders: the header line, then the buffer is flushed; the result is that last f_puts's count. */
    method WriteHeaders(samples: seq<ChannelSample>, fmt: Formatters) returns (rc: int)
      requires Valid()
      modifies this, buffer
      ensures Valid() && pending == ""
      ensures written == old(Stream()) + HeaderLine(samples, fmt)
      ensures 0 <= rc < FILE_BUFFER_SIZE
    {
      AppendHeaderFields(samples, fmt);
      rc := EndLine();
    }

    /** writeHeaders's loop over the channels. */
    method AppendHeaderFields(samples: seq<ChannelSample>, fmt: Formatters)
      requires Valid()
      modifies this, buffer
      ensures Valid()
      ensures Stream() == old(Stream()) + CommaJoin(HeaderFields(samples, fmt))
    {
      ghost var start := Stream();
      ghost var fields := HeaderFields(samples, fmt);
      var separator := "";
      var i := 0;
      while i < |samples|
        invariant Valid() && i <= |samples|
        invariant separator == Separator(i)
        invariant Stream() == start + CommaJoin(fields[..i])
      {
        AppendHeaderStep(start, samples, fmt, i, separator);
        separator := ",";
        i := i + 1;
      }
      assert fields[..i] == fields;
    }

    /** The header loop's body for channel i: the text so far gains one more comma-joined field. */
    method AppendHeaderStep(ghost start: string, samples: seq<ChannelSample>, fmt: Formatters, i: nat, separator: string)
      requires Valid() && i < |samples| && separator == Separator(i)
      requires Stream() == start + CommaJoin(HeaderFields(samples, fmt)[..i])
      modifies this, buffer
      ensures Valid()
      ensures Stream() == start + CommaJoin(HeaderFields(samples, fmt)[..i + 1])
    {
      AppendHeaderChannel(separator, samples[i].cfg, fmt);
      CommaJoinStep(start, HeaderFields(samples, fmt), i);
    }

    /** The end of both writers: appendFileBuffer("\n"), then writeFileBuffer and its count. */
    method EndLine() returns (rc: int)
      requires Valid()
      modifies this, buffer
      ensures Valid() && pending == ""
      ensures written == old(Stream()) + "\n"
      ensures rc == (|old(pending)| + 1) % FILE_BUFFER_SIZE
    {
      CStrOfPlainText("\n");
      Append("\n");
      CStrStopsAtNul(buffer[..], index);
      rc := WriteFileBuffer();
    }

    /** One pass of writeChannelSamples's loop: the separator, then the value if the channel was sampled. */
    method AppendRowChannel(separator: string, sample: ChannelSample, fmt: Formatters)
      requires Valid() && (separator == "" || separator == ",")
      modifies this, buffer
      ensures Valid()
      ensures Stream() == old(Stream()) + separator + RowField(sample, fmt)
    {
      CStrOfPlainText(separator);
      Append(separator);
      if !sample.populated {
        return;
      }
      var precision := sample.cfg.precision;
      match sample.value {
        case FloatValue(f) => Append(fmt.ftoa(f, precision));
        case IntValue(n) => Append(fmt.itoa(n));
        case LongLongValue(n) => Append(fmt.ltoa(n));
        case DoubleValue(d) => Append(fmt.dtoa(d, precision));
        case Unexpected =>
      }
    }

    /**
     * writeChannelSamples: WRITE_FAIL for a missing sample array; otherwise the row,
     * a flushed buffer and WRITE_SUCCESS.
     */
    method WriteChannelSamples(samples: Option<seq<ChannelSample>>, fmt: Formatters) returns (rc: int)
      requires Valid()
      modifies this, buffer
      ensures Valid()
      ensures samples.None? ==> rc == WRITE_FAIL && written == old(written) && pending == old(pending)
      ensures samples.Some? ==>
        rc == WRITE_SUCCESS && pending == "" && written == old(Stream()) + RowLine(samples.value, fmt)
    {
      if samples == None {
        return WRITE_FAIL;
      }
      AppendRowFields(samples.value, fmt);
      var _ := EndLine();
      rc := WRITE_SUCCESS;
    }

    /** writeChannelSamples's loop over the channels. */
    method AppendRowFields(row: seq<ChannelSample>, fmt: Formatters)
      requires Valid()
      modifies this, buffer
      ensures Valid()
      ensures Stream() == old(Stream()) + CommaJoin(RowFields(row, fmt))
    {
      ghost var start := Stream();
      ghost var fields := RowFields(row, fmt);
      var separator := "";
      var i := 0;
      while i < |row|
        invariant Valid() && i <= |row|
        invariant separator == Separator(i)
        invariant Stream() == start + CommaJoin(fields[..i])
      {
        AppendRowStep(start, row, fmt, i, separator);
        separator := ",";
        i := i + 1;
      }
      assert fields[..i] == fields;
    }

    /** The row loop's body for channel i: the text so far gains one more comma-joined field. */
    method AppendRowStep(ghost start: string, row: seq<ChannelSample>, fmt: Formatters, i: nat, separator: string)
      requires Valid() && i < |row| && separator == Separator(i)
      requires Stream() == start + CommaJoin(RowFields(row, fmt)[..i])
      modifies this, buffer
      ensures Valid()
      ensures Stream() == start + CommaJoin(RowFields(row, fmt)[..i + 1])
    {
      AppendRowChannel(separator, row[i], fmt);
      CommaJoinStep(start, RowFields(row, fmt), i);
    }
  }

  /** One more field: its separator, then the field. */
  lemma CommaJoinStep(prefix: string, fields: seq<string>, i: nat)
    requires i < |fields|
    ensures prefix + CommaJoin(fields[..i + 1]) == prefix + CommaJoin(fields[..i]) + Separator(i) + fields[i]
  {
    assert fields[..i + 1][..i] == fields[..i];
  }

  lemma ModStep(a: nat)
    ensures (a % FILE_BUFFER_SIZE + 1) % FILE_BUFFER_SIZE == (a + 1) % FILE_BUFFER_SIZE
  {
  }

  /** Text moves from the buffer to the file only in whole buffers. */
  lemma WholeBuffers(w0: nat, q0: nat, w: nat, q: nat, n: nat)
    requires w + q == w0 + q0 + n && q == (q0 + n) % FILE_BUFFER_SIZE
    ensures (w - w0) % FILE_BUFFER_SIZE == 0
  {
    assert w - w0 == FILE_BUFFER_SIZE * ((q0 + n) / FILE_BUFFER_SIZE);
  }

  /** The separators and quotes the writers append are their own C strings. */
  lemma PlainTexts()
    ensures CStr("") == "" && CStr(",") == "," && CStr("|") == "|" && CStr("\"") == "\""
  {
    CStrOfPlainText(",");
    CStrOfPlainText("|");
    CStrOfPlainText("\"");
  }

  /** A channel's configuration: the fields the header reads. */
  datatype ChannelConfig = ChannelConfig(
    name: string, units: string, min: int, max: int, sampleRate: int, precision: int)

  /** A sample's value, tagged by its SampleData kind (each kind and its _Noarg twin write the same). */
  datatype SampleValue =
    | FloatValue(f: real)
    | IntValue(n: int)
    | LongLongValue(n: int)
    | DoubleValue(d: real)
    | Unexpected

  datatype ChannelSample = ChannelSample(populated: bool, cfg: ChannelConfig, value: SampleValue)

  /** decodeSampleRate and the modp formatters, whose bodies are not part of this model. */
  datatype Formatters = Formatters(
    decodeSampleRate: int -> int,
    itoa: int -> string,
    ltoa: int -> string,
    ftoa: (real, int) -> string,
    dtoa: (real, int) -> string)

  /** What appendQuotedString adds. */
  function Quoted(s: string): (r: string)
    ensures |r| >= 2 && r[0] == '"' && r[|r| - 1] == '"'
  {
    "\"" + CStr(s) + "\""
  }

  /** One channel's header field: `"label"|"units"|min|max|rate`. */
  function HeaderField(cfg: ChannelConfig, fmt: Formatters): string
  {
    Quoted(cfg.name) + "|" + Quoted(cfg.units) + "|"
    + CStr(fmt.ftoa(fmt.decodeSampleRate(cfg.min) as real, cfg.precision)) + "|"
    + CStr(fmt.ftoa(fmt.decodeSampleRate(cfg.max) as real, cfg.precision)) + "|"
    + CStr(fmt.itoa(fmt.decodeSampleRate(cfg.sampleRate)))
  }

  /** The concatenation of the C strings in `parts`. */
  function Joined(parts: seq<string>): string
  {
    if parts == [] then "" else Joined(parts[..|parts| - 1]) + CStr(parts[|parts| - 1])
  }

  lemma JoinedStep(parts: seq<string>, k: nat)
    requires k < |parts|
    ensures Joined(parts[..k + 1]) == Joined(parts[..k]) + CStr(parts[k])
  {
    assert parts[..k + 1][..k] == parts[..k];
  }

  /** The strings writeHeaders appends for one channel, in order. */
  function HeaderParts(cfg: ChannelConfig, fmt: Formatters): seq<string>
  {
    ["\"", cfg.name, "\"", "|", "\"", cfg.units, "\"", "|",
     fmt.ftoa(fmt.decodeSampleRate(cfg.min) as real, cfg.precision), "|",
     fmt.ftoa(fmt.decodeSampleRate(cfg.max) as real, cfg.precision), "|",
     fmt.itoa(fmt.decodeSampleRate(cfg.sampleRate))]
  }

  /** writeHeaders's thirteen appends for a channel lay out its header field. */
  lemma HeaderPartsLayout(cfg: ChannelConfig, fmt: Formatters)
    ensures Joined(HeaderParts(cfg, fmt)) == HeaderField(cfg, fmt)
  {
    var p := HeaderParts(cfg, fmt);
    PlainTexts();
    assert p[..0] == [];
    JoinedQuoted(p, 0, cfg.name);
    assert Joined(p[..3]) == Quoted(cfg.name);
    JoinedStep(p, 3);
    JoinedQuoted(p, 4, cfg.units);
    JoinedStep(p, 7);
    JoinedStep(p, 8);
    JoinedStep(p, 9);
    JoinedStep(p, 10);
    JoinedStep(p, 11);
    JoinedStep(p, 12);
    assert p[..13] == p;
  }

  /** appendQuotedString's three appends, as part of a longer run. */
  lemma JoinedQuoted(p: seq<string>, k: nat, s: string)
    requires k + 3 <= |p| && p[k] == "\"" && p[k + 1] == s && p[k + 2] == "\""
    ensures Joined(p[..k + 3]) == Joined(p[..k]) + Quoted(s)
  {
    PlainTexts();
    JoinedStep(p, k);
    JoinedStep(p, k + 1);
    JoinedStep(p, k + 2);
    var x := Joined(p[..k]);
    assert x + "\"" + CStr(s) + "\"" == x + ("\"" + CStr(s) + "\"");
  }

  /** The separator written before the field of channel i. */
  function Separator(i: nat): string
  {
    if i == 0 then "" else ","
  }

  /** Fields joined by commas, as the writers' separator variable lays them out. */
  function CommaJoin(fields: seq<string>): string
  {
    if fields == [] then ""
    else CommaJoin(fields[..|fields| - 1]) + Separator(|fields| - 1) + fields[|fields| - 1]
  }

  function HeaderFields(samples: seq<ChannelSample>, fmt: Formatters): (r: seq<string>)
    ensures |r| == |samples|
    ensures forall j :: 0 <= j < |r| ==> r[j] == HeaderField(samples[j].cfg, fmt)
  {
    seq(|samples|, j requires 0 <= j < |samples| => HeaderField(samples[j].cfg, fmt))
  }

  /** The header line: every channel's field, comma separated, then a newline. */
  function HeaderLine(samples: seq<ChannelSample>, fmt: Formatters): string
  {
    CommaJoin(HeaderFields(samples, fmt)) + "\n"
  }

  /** One channel's row field: its formatted value, or nothing when it was not sampled. */
  function RowField(sample: ChannelSample, fmt: Formatters): string
  {
    if !sample.populated then ""
    else match sample.value
      case FloatValue(f) => CStr(fmt.ftoa(f, sample.cfg.precision))
      case IntValue(n) => CStr(fmt.itoa(n))
      case LongLongValue(n) => CStr(fmt.ltoa(n))
      case DoubleValue(d) => CStr(fmt.dtoa(d, sample.cfg.precision))
      case Unexpected => ""
  }

  function RowFields(samples: seq<ChannelSample>, fmt: Formatters): (r: seq<string>)
    ensures |r| == |samples|
    ensures forall j :: 0 <= j < |r| ==> r[j] == RowField(samples[j], fmt)
  {
    seq(|samples|, j requires 0 <= j < |samples| => RowField(samples[j], fmt))
  }

  /** A data row: every channel's field, comma separated, then a newline. */
  function RowLine(samples: seq<ChannelSample>, fmt: Formatters): string
  {
    CommaJoin(RowFields(samples, fmt)) + "\n"
  }

  /** The number of times c occurs in s. */
  function Count(c: char, s: string): (n: nat)
    ensures n <= |s|
  {
    if s == [] then 0 else Count(c, s[..|s| - 1]) + (if s[|s| - 1] == c then 1 else 0)
  }

  lemma {:induction false} CountAppend(c: char, a: string, b: string)
    ensures Count(c, a + b) == Count(c, a) + Count(c, b)
    decreases |b|
  {
    if b == [] {
      assert a + b == a;
    } else {
      assert (a + b)[..|a + b| - 1] == a + b[..|b| - 1];
      CountAppend(c, a, b[..|b| - 1]);
    }
  }

  lemma {:induction false} CountAbsent(c: char, s: string)
    requires c !in s
    ensures Count(c, s) == 0
    decreases |s|
  {
    if s != [] {
      assert c !in s[..|s| - 1];
      CountAbsent(c, s[..|s| - 1]);
    }
  }

  /** n comma-free fields joined hold n - 1 commas. */
  lemma {:induction false} CommaJoinCommas(fields: seq<string>)
    requires 1 <= |fields|
    requires forall j :: 0 <= j < |fields| ==> ',' !in fields[j]
    ensures Count(',', CommaJoin(fields)) == |fields| - 1
    decreases |fields|
  {
    var n := |fields|;
    var init := fields[..n - 1];
    CountAbsent(',', fields[n - 1]);
    CountAppend(',', CommaJoin(init) + Separator(n - 1), fields[n - 1]);
    CountAppend(',', CommaJoin(init), Separator(n - 1));
    if n == 1 {
      assert init == [];
    } else {
      CommaJoinCommas(init);
      assert Count(',', ",") == 1 by {
        assert ","[..0] == "";
      }
    }
  }

  /** A row of n channels whose values print without commas holds n - 1 commas, then the newline. */
  lemma RowLineCommas(samples: seq<ChannelSample>, fmt: Formatters)
    requires 1 <= |samples|
    requires forall j :: 0 <= j < |samples| ==> ',' !in RowField(samples[j], fmt)
    ensures Count(',', RowLine(samples, fmt)) == |samples| - 1
    ensures RowLine(samples, fmt)[|RowLine(samples, fmt)| - 1] == '\n'
  {
    var fields := RowFields(samples, fmt);
    CommaJoinCommas(fields);
    CountAppend(',', CommaJoin(fields), "\n");
    assert "\n"[..0] == "";
  }

  /** The `sep`-separated fields of a line, read back from its end. */
  function Split(s: string, sep: char): (r: seq<string>)
    ensures |r| >= 1
  {
    if s == [] then [""]
    else if s[|s| - 1] == sep then Split(s[..|s| - 1], sep) + [""]
    else
      var r := Split(s[..|s| - 1], sep);
      r[..|r| - 1] + [r[|r| - 1] + [s[|s| - 1]]]
  }

  /** A separator opens a new, empty field. */
  lemma SplitAtSeparator(a: string, sep: char)
    ensures Split(a + [sep], sep) == Split(a, sep) + [""]
  {
    assert (a + [sep])[..|a|] == a;
  }

  /** Text without the separator extends the last field. */
  lemma {:induction false} SplitExtendsLast(a: string, f: string, sep: char)
    requires sep !in f
    ensures var r := Split(a, sep);
      Split(a + f, sep) == r[..|r| - 1] + [r[|r| - 1] + f]
    decreases |f|
  {
    var r := Split(a, sep);
    if f == [] {
      assert a + f == a;
      assert r[|r| - 1] + f == r[|r| - 1];
      assert r[..|r| - 1] + [r[|r| - 1]] == r;
    } else {
      var g := f[..|f| - 1];
      var c := f[|f| - 1];
      assert sep !in g;
      assert (a + f)[..|a + f| - 1] == a + g;
      assert (a + f)[|a + f| - 1] == c;
      SplitExtendsLast(a, g, sep);
      var q := Split(a + g, sep);
      assert q[..|q| - 1] == r[..|r| - 1];
      assert q[|q| - 1] == r[|r| - 1] + g;
      assert g + [c] == f;
      assert q[|q| - 1] + [c] == r[|r| - 1] + f;
    }
  }

  lemma CommaJoinLast(fields: seq<string>)
    requires 2 <= |fields|
    ensures CommaJoin(fields) == CommaJoin(fields[..|fields| - 1]) + [','] + fields[|fields| - 1]
  {
  }

  lemma LastSplitOff(fields: seq<string>)
    requires 1 <= |fields|
    ensures fields == fields[..|fields| - 1] + [fields[|fields| - 1]]
  {
  }

  /** Splitting at commas undoes the writers' comma join. */
  lemma {:induction false} SplitCommaJoin(fields: seq<string>)
    requires 1 <= |fields|
    requires forall j :: 0 <= j < |fields| ==> ',' !in fields[j]
    ensures Split(CommaJoin(fields), ',') == fields
    decreases |fields|
  {
    var n := |fields|;
    var init := fields[..n - 1];
    var last := fields[n - 1];
    if n == 1 {
      SplitSingle(last, ',');
      assert CommaJoin(fields) == "" + "" + last;
      assert "" + "" + last == last;
    } else {
      assert forall j :: 0 <= j < |init| ==> init[j] == fields[j];
      SplitCommaJoin(init);
      var head := CommaJoin(init);
      CommaJoinLast(fields);
      SplitAppendField(head, last, ',');
      LastSplitOff(fields);
    }
  }

  /**
   * A header field read back at its bars: the quoted label, the quoted units and the
   * three numbers, provided none of them prints a bar.
   */
  lemma HeaderFieldColumns(cfg: ChannelConfig, fmt: Formatters)
    requires '|' !in CStr(cfg.name) && '|' !in CStr(cfg.units)
    requires '|' !in CStr(fmt.ftoa(fmt.decodeSampleRate(cfg.min) as real, cfg.precision))
    requires '|' !in CStr(fmt.ftoa(fmt.decodeSampleRate(cfg.max) as real, cfg.precision))
    requires '|' !in CStr(fmt.itoa(fmt.decodeSampleRate(cfg.sampleRate)))
    ensures Split(HeaderField(cfg, fmt), '|') == [
      Quoted(cfg.name), Quoted(cfg.units),
      CStr(fmt.ftoa(fmt.decodeSampleRate(cfg.min) as real, cfg.precision)),
      CStr(fmt.ftoa(fmt.decodeSampleRate(cfg.max) as real, cfg.precision)),
      CStr(fmt.itoa(fmt.decodeSampleRate(cfg.sampleRate)))]
  {
    var name := Quoted(cfg.name);
    var units := Quoted(cfg.units);
    var lo := CStr(fmt.ftoa(fmt.decodeSampleRate(cfg.min) as real, cfg.precision));
    var hi := CStr(fmt.ftoa(fmt.decodeSampleRate(cfg.max) as real, cfg.precision));
    var rate := CStr(fmt.itoa(fmt.decodeSampleRate(cfg.sampleRate)));
    QuotedAvoids(cfg.name, '|');
    QuotedAvoids(cfg.units, '|');
    SplitTwoFields(name, units, '|');
    SplitAppendField(name + "|" + units, lo, '|');
    SplitAppendField(name + "|" + units + "|" + lo, hi, '|');
    SplitAppendField(name + "|" + units + "|" + lo + "|" + hi, rate, '|');
  }

  /** Quoting adds only double quotes. */
  lemma QuotedAvoids(s: string, c: char)
    requires c != '"' && c !in CStr(s)
    ensures c !in Quoted(s)
  {
  }

  /** Text without the separator is one field. */
  lemma SplitSingle(f: string, sep: char)
    requires sep !in f
    ensures Split(f, sep) == [f]
  {
    SplitExtendsLast("", f, sep);
    assert "" + f == f;
  }

  lemma SplitTwoFields(a: string, b: string, sep: char)
    requires sep !in a && sep !in b
    ensures Split(a + [sep] + b, sep) == [a, b]
  {
    SplitSingle(a, sep);
    SplitAppendField(a, b, sep);
  }

  /** A separator and then text without it add one field. */
  lemma SplitAppendField(a: string, f: string, sep: char)
    requires sep !in f
    ensures Split(a + [sep] + f, sep) == Split(a, sep) + [f]
  {
    SplitAtSeparator(a, sep);
    SplitExtendsLast(a + [sep], f, sep);
    var r := Split(a + [sep], sep);
    assert r[..|r| - 1] == Split(a, sep);
    assert r[|r| - 1] + f == f;
  }

  /**
   * A row read back: one field per channel, in order, empty for every channel that
   * was not sampled, provided the values print without commas.
   */
  lemma RowLineFields(samples: seq<ChannelSample>, fmt: Formatters)
    requires 1 <= |samples|
    requires forall j :: 0 <= j < |samples| ==> ',' !in RowField(samples[j], fmt)
    ensures var line := RowLine(samples, fmt);
      var fields := Split(line[..|line| - 1], ',');
      && |fields| == |samples|
      && (forall j :: 0 <= j < |samples| ==> fields[j] == RowField(samples[j], fmt))
      && (forall j :: 0 <= j < |samples| && !samples[j].populated ==> fields[j] == "")
  {
    var line := RowLine(samples, fmt);
    assert line[..|line| - 1] == CommaJoin(RowFields(samples, fmt));
    SplitCommaJoin(RowFields(samples, fmt));
  }

  /* ---------------- Where appendFileBuffer stores into the 256-character array ---------------- */

  /**
   * The buffer offsets appendFileBuffer stores to, in order, when it copies n
   * characters starting at `index`: each character, the NUL written at the buffer
   * pointer when the index reaches FILE_BUFFER_SIZE, writeFileBuffer's NUL at
   * offset 0, and the closing NUL.
   */
  function StoreOffsets(index: nat, n: nat): (r: seq<nat>)
    requires index < FILE_BUFFER_SIZE
    ensures |r| >= 1
    decreases n
  {
    if n == 0 then [index]
    else if index + 1 >= FILE_BUFFER_SIZE then [index, index + 1, 0] + StoreOffsets(0, n - 1)
    else [index] + StoreOffsets(index + 1, n - 1)
  }

  /**
   * Every store is at an offset of at most FILE_BUFFER_SIZE, and offset
   * FILE_BUFFER_SIZE is stored to exactly when the copy fills the buffer: one past
   * the end of the `char buffer[FILE_BUFFER_SIZE]` that the struct declares.
   */
  lemma {:induction false} StoresReachPastBuffer(index: nat, n: nat)
    requires index < FILE_BUFFER_SIZE
    ensures forall o :: o in StoreOffsets(index, n) ==> o <= FILE_BUFFER_SIZE
    ensures FILE_BUFFER_SIZE in StoreOffsets(index, n) <==> index + n >= FILE_BUFFER_SIZE
    decreases n
  {
    if n == 0 {
    } else if index + 1 >= FILE_BUFFER_SIZE {
      StoresReachPastBuffer(0, n - 1);
      assert FILE_BUFFER_SIZE in StoreOffsets(index, n) by {
        assert StoreOffsets(index, n)[1] == FILE_BUFFER_SIZE;
      }
    } else {
      StoresReachPastBuffer(index + 1, n - 1);
    }
  }

  /** One character into a buffer holding 255 writes the NUL at offset 256. */
  lemma FullBufferTerminatorOverruns()
    ensures StoreOffsets(FILE_BUFFER_SIZE - 1, 1) == [FILE_BUFFER_SIZE - 1, FILE_BUFFER_SIZE, 0, 0]
  {
  }

  /* ---------------- Log-file names ---------------- */

  /** The decimal digit for d. */
  function DigitChar(d: nat): (c: char)
    requires d < 10
    ensures '0' <= c <= '9'
  {
    ('0' as int + d) as char
  }

  /** modp_itoa10 for a non-negative number: its decimal digits, most significant first. */
  function DecimalDigits(n: nat): (r: string)
    ensures |r| >= 1
    ensures forall k :: 0 <= k < |r| ==> '0' <= r[k] <= '9'
  {
    if n < 10 then [DigitChar(n)] else DecimalDigits(n / 10) + [DigitChar(n % 10)]
  }

  /** The number a string of decimal digits denotes. */
  function DecimalValue(s: string): nat
    requires forall k :: 0 <= k < |s| ==> '0' <= s[k] <= '9'
  {
    if s == [] then 0 else DecimalValue(s[..|s| - 1]) * 10 + (s[|s| - 1] as int - '0' as int)
  }

  /** Reading the digits back gives the number. */
  lemma {:induction false} DecimalRoundTrip(n: nat)
    ensures DecimalValue(DecimalDigits(n)) == n
  {
    var r := DecimalDigits(n);
    if n >= 10 {
      DecimalRoundTrip(n / 10);
      assert r[..|r| - 1] == DecimalDigits(n / 10);
    }
  }

  /** A number below 10^k has at most k digits. */
  lemma {:induction false} DecimalLength(n: nat, k: nat)
    requires 1 <= k && n < Pow10(k)
    ensures |DecimalDigits(n)| <= k
  {
    if n >= 10 {
      assert k >= 2;
      DecimalLength(n / 10, k - 1);
    }
  }

  function Pow10(k: nat): (p: nat)
    ensures p >= 1
  {
    if k == 0 then 1 else 10 * Pow10(k - 1)
  }

  /** The name openNextLogfile builds for index i: "rc_", the index, ".log". */
  function LogName(i: nat): string
  {
    "rc_" + DecimalDigits(i) + ".log"
  }

  /** Every name tried fits FILENAME_LEN characters with its NUL. */
  lemma LogNameFits(i: nat)
    requires i < MAX_LOG_FILE_INDEX
    ensures |LogName(i)| + 1 <= FILENAME_LEN
  {
    assert Pow10(5) == 100000;
    DecimalLength(i, 5);
  }

  /** Different indices give different names. */
  lemma LogNamesDistinct(i: nat, j: nat)
    requires LogName(i) == LogName(j)
    ensures i == j
  {
    var a := LogName(i);
    var b := LogName(j);
    assert a[3..|a| - 4] == DecimalDigits(i);
    assert b[3..|b| - 4] == DecimalDigits(j);
    DecimalRoundTrip(i);
    DecimalRoundTrip(j);
  }

  /**
   * The index openNextLogfile settles on: the first i >= from below
   * MAX_LOG_FILE_INDEX whose name f_open creates (result 0), or None.
   */
  function FirstFreeLog(fOpen: string -> int, from: nat): Option<nat>
    decreases MAX_LOG_FILE_INDEX - from
  {
    if from >= MAX_LOG_FILE_INDEX then None
    else if fOpen(LogName(from)) == 0 then Some(from)
    else FirstFreeLog(fOpen, from + 1)
  }

  /** FirstFreeLog finds the first name that opens, and reports None only when none does. */
  lemma {:induction false} FirstFreeLogIsFirst(fOpen: string -> int, from: nat)
    ensures FirstFreeLog(fOpen, from).Some? ==>
      var i := FirstFreeLog(fOpen, from).value;
      && from <= i < MAX_LOG_FILE_INDEX && fOpen(LogName(i)) == 0
      && (forall j :: from <= j < i ==> fOpen(LogName(j)) != 0)
    ensures FirstFreeLog(fOpen, from).None? <==>
      (forall j :: from <= j < MAX_LOG_FILE_INDEX ==> fOpen(LogName(j)) != 0)
    decreases MAX_LOG_FILE_INDEX - from
  {
    if from < MAX_LOG_FILE_INDEX && fOpen(LogName(from)) != 0 {
      FirstFreeLogIsFirst(fOpen, from + 1);
    }
  }

  /**
   * openNextLogfile's search: tries rc_0.log, rc_1.log, ... with f_open, stops at
   * the first one it creates and returns 0 with that name; once the index reaches
   * MAX_LOG_FILE_INDEX it returns -2, the buffer holding the last name tried.
   */
  method OpenNextLogfile(fOpen: string -> int) returns (rc: int, filename: string)
    ensures rc == 0 || rc == NO_FREE_LOG_NAME
    ensures rc == 0 <==> FirstFreeLog(fOpen, 0).Some?
    ensures rc == 0 ==> filename == LogName(FirstFreeLog(fOpen, 0).value)
    ensures rc == NO_FREE_LOG_NAME ==> filename == LogName(MAX_LOG_FILE_INDEX - 1)
    ensures |filename| < FILENAME_LEN
  {
    filename := "";
    var i := 0;
    while i < MAX_LOG_FILE_INDEX
      invariant 0 <= i <= MAX_LOG_FILE_INDEX
      invariant FirstFreeLog(fOpen, 0) == FirstFreeLog(fOpen, i)
      invariant i > 0 ==> filename == LogName(i - 1)
      invariant |filename| < FILENAME_LEN
    {
      filename := "rc_" + DecimalDigits(i) + ".log";
      LogNameFits(i);
      rc := fOpen(filename);
      if rc == 0 {
        return;
      }
      i := i + 1;
    }
    return NO_FREE_LOG_NAME, filename;
  }
}
