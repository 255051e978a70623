/** Loading host files: each line is trimmed, blank and comment lines are
    skipped, the rest is split on commas and fed to `Update`. A port that
    does not parse throws out of the loop and ends the load. */
module Loading {
  import opened Text
  import opened Callsign
  import opened Directory

  /** Why a load stopped early. `BadPort` is the exception `std::stoul`
      throws on a non-numeric field; `MissingFields` stands for a data line
      with fewer than five fields, whose fifth field the source reads out
      of range (undefined behaviour, modelled here as a stop). */
  datatype LoadError = BadPort | MissingFields

  datatype Outcome = Complete | Aborted(error: LoadError)

  /** A directory together with how the load that produced it ended. */
  datatype Load = Load(dir: Dir, outcome: Outcome)

  /** The five leading fields of a data line, the port already narrowed. */
  datatype Entry = Entry(call: string, url: string, ip4addr: string, ip6addr: string, port: Port)

  datatype Line = Skip | Data(entry: Entry) | Bad(error: LoadError)

  /** After trimming, an empty line or one starting with '#' is skipped. */
  predicate IsSkipped(line: string) {
    var t := Trim(line);
    |t| == 0 || t[0] == '#'
  }

  /** Classifies one line of a host file. */
  function ParseLine(line: string): (r: Line)
    ensures r.Skip? <==> IsSkipped(line)
    ensures r.Data? ==> |Split(Trim(line), ',')| >= 5 && r.entry.call == Split(Trim(line), ',')[0]
  {
    var t := Trim(line);
    if |t| == 0 || t[0] == '#' then Skip
    else
      var elem := Split(t, ',');
      if |elem| < 5 then Bad(MissingFields)
      else match ParseDecimal(elem[4])
        case None => Bad(BadPort)
        case Some(n) => Data(Entry(elem[0], elem[1], elem[2], elem[3], n % 0x1_0000))
  }

  /** What a line means: skipped after trimming when empty or a comment;
      otherwise an error when it has fewer than five comma-separated
      fields or its fifth field is not a decimal number; otherwise an
      entry of its first four fields and its port taken modulo 2^16. */
  lemma ParseLineSpec(line: string)
    ensures var f := Split(Trim(line), ',');
      && (ParseLine(line) == Bad(MissingFields) <==> !IsSkipped(line) && |f| < 5)
      && (ParseLine(line) == Bad(BadPort) <==> !IsSkipped(line) && |f| >= 5 && !(f[4] != [] && AllDigits(f[4])))
      && (ParseLine(line).Data? ==>
            && |f| >= 5 && f[4] != [] && AllDigits(f[4])
            && ParseLine(line).entry == Entry(f[0], f[1], f[2], f[3], DecimalValue(f[4]) % 0x1_0000))
  {
  }

  /** The line made of five given fields. */
  lemma FiveFieldLine(f: seq<string>, line: string)
    requires |f| == 5 && forall i :: 0 <= i < 5 ==> ',' !in f[i]
    requires line == f[0] + "," + f[1] + "," + f[2] + "," + f[3] + "," + f[4]
    requires f[0] == [] || !IsSpace(f[0][0])
    requires f[4] == [] || !IsSpace(f[4][|f[4]| - 1])
    ensures Split(Trim(line), ',') == f
  {
    assert f[4..] == [f[4]];
    JoinFrom(f, ',', 3);
    JoinFrom(f, ',', 2);
    JoinFrom(f, ',', 1);
    JoinFrom(f, ',', 0);
    assert f[0..] == f;
    assert Join(f, ',') == line;
    TrimUnchanged(line);
    SplitJoin(f, ',');
  }

  /** A data line written with a decimal port reads back as its fields,
      with the port narrowed to 16 bits (65537 is read as 1). */
  lemma PortIsNarrowed(call: string, url: string, ip4addr: string, ip6addr: string, n: nat)
    requires ',' !in call && ',' !in url && ',' !in ip4addr && ',' !in ip6addr
    requires call != [] && !IsSpace(call[0]) && call[0] != '#'
    ensures ParseLine(call + "," + url + "," + ip4addr + "," + ip6addr + "," + Decimal(n))
         == Data(Entry(call, url, ip4addr, ip6addr, n % 0x1_0000))
  {
    DecimalHasNoSeparators(n, ',');
    var p := Decimal(n);
    FiveFieldLine([call, url, ip4addr, ip6addr, p], call + "," + url + "," + ip4addr + "," + ip6addr + "," + p);
    DecimalRoundTrip(n);
  }

  /** A port field that is empty or holds a non-digit throws. */
  lemma NonNumericPortThrows(call: string, url: string, ip4addr: string, ip6addr: string, port: string)
    requires ',' !in call && ',' !in url && ',' !in ip4addr && ',' !in ip6addr && ',' !in port
    requires call != [] && !IsSpace(call[0]) && call[0] != '#'
    requires port == [] || !IsSpace(port[|port| - 1])
    requires port == [] || exists i :: 0 <= i < |port| && !IsDigit(port[i])
    ensures ParseLine(call + "," + url + "," + ip4addr + "," + ip6addr + "," + port) == Bad(BadPort)
  {
    FiveFieldLine([call, url, ip4addr, ip6addr, port], call + "," + url + "," + ip4addr + "," + ip6addr + "," + port);
  }

  /** Every line starting with '#' is skipped. */
  lemma CommentIsSkipped(line: string)
    requires line != [] && line[0] == '#'
    ensures ParseLine(line) == Skip
  {
    assert TrimLeft(line) == line;
    if TrimRight(line) != [] {
      assert Trim(line)[0] == line[0];
    }
  }

  function Apply(d: Dir, e: Entry): Dir {
    d.Update(e.call, e.url, e.ip4addr, e.ip6addr, e.port)
  }

  /** Some line of `lines` throws. */
  predicate AnyThrows(lines: seq<string>)
    decreases |lines|
  {
    lines != [] && (ParseLine(lines[0]).Bad? || AnyThrows(lines[1..]))
  }

  lemma {:induction false} AnyThrowsSpec(lines: seq<string>)
    ensures AnyThrows(lines) <==> exists i :: 0 <= i < |lines| && ParseLine(lines[i]).Bad?
    decreases |lines|
  {
    if lines != [] {
      AnyThrowsSpec(lines[1..]);
      assert forall i :: 0 < i < |lines| ==> lines[i] == lines[1..][i - 1];
      if AnyThrows(lines[1..]) && !ParseLine(lines[0]).Bad? {
        var j :| 0 <= j < |lines[1..]| && ParseLine(lines[1..][j]).Bad?;
        assert ParseLine(lines[j + 1]).Bad?;
      }
    }
  }

  /** Reads the lines of one file into `d`, in order, stopping at the
      first line that throws. The load stops early exactly when some line
      throws. */
  function ReadLines(d: Dir, lines: seq<string>): (r: Load)
    ensures r.outcome.Aborted? <==> AnyThrows(lines)
    decreases |lines|
  {
    if lines == [] then Load(d, Complete)
    else
      match ParseLine(lines[0])
      case Skip => ReadLines(d, lines[1..])
      case Data(e) => ReadLines(Apply(d, e), lines[1..])
      case Bad(err) => Load(d, Aborted(err))
  }

  /** One step of a load: a skipped line is passed over, a line that
      throws ends the load with the directory as it is. */
  lemma ReadOtherLine(d: Dir, lines: seq<string>)
    requires lines != [] && !ParseLine(lines[0]).Data?
    ensures ParseLine(lines[0]).Skip? ==> ReadLines(d, lines) == ReadLines(d, lines[1..])
    ensures ParseLine(lines[0]).Bad? ==> ReadLines(d, lines) == Load(d, Aborted(ParseLine(lines[0]).error))
  {
  }

  /** One data line is applied before the rest of the file is read. */
  lemma ReadDataLine(d: Dir, lines: seq<string>)
    requires lines != [] && ParseLine(lines[0]).Data?
    ensures ReadLines(d, lines) == ReadLines(Apply(d, ParseLine(lines[0]).entry), lines[1..])
  {
  }

  /** The full reload: both tables cleared, then the distribution file,
      then the override file. An exception from the first file leaves
      before the second is opened. */
  function ReadAll(csv: seq<string>, cfg: seq<string>): (r: Load)
    ensures r.outcome.Aborted? <==> AnyThrows(csv) || AnyThrows(cfg)
  {
    var first := ReadLines(Empty, csv);
    if first.outcome.Aborted? then first else ReadLines(first.dir, cfg)
  }

  /** Reading two pieces one after the other is reading them joined,
      unless the first piece stops the load. */
  lemma {:induction false} ReadLinesAppend(d: Dir, xs: seq<string>, ys: seq<string>)
    ensures var first := ReadLines(d, xs);
      ReadLines(d, xs + ys) == if first.outcome.Aborted? then first else ReadLines(first.dir, ys)
    decreases |xs|
  {
    if xs == [] {
      assert xs + ys == ys;
    } else {
      assert (xs + ys)[0] == xs[0];
      assert (xs + ys)[1..] == xs[1..] + ys;
      match ParseLine(xs[0])
      case Skip => ReadLinesAppend(d, xs[1..], ys);
      case Data(e) => ReadLinesAppend(Apply(d, e), xs[1..], ys);
      case Bad(_) =>
    }
  }

  /** Loading both files is loading their concatenation into an empty
      directory: the override file continues where the distribution file
      ended, and stopping in the distribution file skips the override file. */
  lemma ReadAllIsConcatenation(csv: seq<string>, cfg: seq<string>)
    ensures ReadAll(csv, cfg) == ReadLines(Empty, csv + cfg)
  {
    ReadLinesAppend(Empty, csv, cfg);
  }

  /** The lines without the skipped ones. */
  function DataLines(lines: seq<string>): (r: seq<string>)
    ensures forall l :: l in r ==> l in lines && !IsSkipped(l)
  {
    if lines == [] then []
    else if IsSkipped(lines[0]) then DataLines(lines[1..])
    else [lines[0]] + DataLines(lines[1..])
  }

  /** Blank and comment lines have no effect: loading a file is loading it
      with those lines removed. */
  lemma {:induction false} SkippedLinesIgnored(d: Dir, lines: seq<string>)
    ensures ReadLines(d, lines) == ReadLines(d, DataLines(lines))
    decreases |lines|
  {
    if lines != [] {
      var rest := DataLines(lines[1..]);
      match ParseLine(lines[0])
      case Skip => SkippedLinesIgnored(d, lines[1..]);
      case Data(e) =>
        SkippedLinesIgnored(Apply(d, e), lines[1..]);
        assert ([lines[0]] + rest)[1..] == rest;
      case Bad(_) =>
    }
  }

  /** A line that throws ends the load there: the lines before it have been
      applied and no line after it is. */
  lemma AbortStopsAtLine(d: Dir, lines: seq<string>, k: nat)
    requires k < |lines| && ParseLine(lines[k]).Bad?
    requires ReadLines(d, lines[..k]).outcome == Complete
    ensures ReadLines(d, lines) == Load(ReadLines(d, lines[..k]).dir, Aborted(ParseLine(lines[k]).error))
  {
    var pre, post := lines[..k], lines[k..];
    assert lines == pre + post;
    assert post != [] && post[0] == lines[k];
    ReadLinesAppend(d, pre, post);
    ReadOtherLine(ReadLines(d, pre).dir, post);
  }

  /** An exception in the distribution file leaves the override file
      unread: the reload result is the partial load of the first file. */
  lemma CsvAbortSkipsCfg(csv: seq<string>, cfg: seq<string>)
    requires ReadLines(Empty, csv).outcome.Aborted?
    ensures ReadAll(csv, cfg) == ReadLines(Empty, csv)
  {
  }

  lemma {:induction false} ReadLinesPreservesValid(d: Dir, lines: seq<string>)
    requires d.Valid()
    ensures ReadLines(d, lines).dir.Valid()
    decreases |lines|
  {
    if lines != [] {
      match ParseLine(lines[0])
      case Skip => ReadLinesPreservesValid(d, lines[1..]);
      case Data(e) =>
        UpdatePreservesValid(d, e.call, e.url, e.ip4addr, e.ip6addr, e.port);
        ReadLinesPreservesValid(Apply(d, e), lines[1..]);
      case Bad(_) =>
    }
  }

  /** The base a data line writes to, in a reachable directory. */
  function LineBase(line: string): Option<string> {
    match ParseLine(line)
    case Data(e) => Base(e.call)
    case _ => None
  }

  /** An update of a callsign whose base is not `b` keeps the record of
      `b`, or its absence. */
  lemma ApplyKeepsOtherBase(d: Dir, e: Entry, b: string)
    requires d.Valid() && Base(e.call) != Some(b)
    ensures var r := Apply(d, e);
      (b in r.bases <==> b in d.bases) && (b in d.bases ==> r.bases[b] == d.bases[b])
  {
    if Base(e.call).Some? && e.call in d.aliases {
      assert d.aliases[e.call] == Base(e.call).value;
    }
  }

  /** A base that no line of the file writes to keeps its record (or its
      absence) through the load. */
  lemma {:induction false} ReadLinesKeepsUntouchedBase(d: Dir, lines: seq<string>, b: string)
    requires d.Valid()
    requires forall i :: 0 <= i < |lines| ==> LineBase(lines[i]) != Some(b)
    ensures var r := ReadLines(d, lines).dir;
      (b in r.bases <==> b in d.bases) && (b in d.bases ==> r.bases[b] == d.bases[b])
    decreases |lines|
  {
    if lines != [] {
      assert LineBase(lines[0]) != Some(b);
      match ParseLine(lines[0])
      case Skip => ReadLinesKeepsUntouchedBase(d, lines[1..], b);
      case Data(e) =>
        var d' := Apply(d, e);
        UpdatePreservesValid(d, e.call, e.url, e.ip4addr, e.ip6addr, e.port);
        ApplyKeepsOtherBase(d, e, b);
        ReadDataLine(d, lines);
        ReadLinesKeepsUntouchedBase(d', lines[1..], b);
      case Bad(_) =>
    }
  }

  /** Bases that only the distribution file mentions keep the value the
      distribution file gave them. */
  lemma CsvOnlyBaseRemains(csv: seq<string>, cfg: seq<string>, b: string)
    requires ReadLines(Empty, csv).outcome == Complete
    requires forall i :: 0 <= i < |cfg| ==> LineBase(cfg[i]) != Some(b)
    ensures var first := ReadLines(Empty, csv).dir;
      var r := ReadAll(csv, cfg).dir;
      (b in r.bases <==> b in first.bases) && (b in first.bases ==> r.bases[b] == first.bases[b])
  {
    EmptyIsValid();
    ReadLinesPreservesValid(Empty, csv);
    ReadLinesKeepsUntouchedBase(ReadLines(Empty, csv).dir, cfg, b);
  }

  /** The last data line naming base `b` decides its record, provided the
      load gets past it: later lines that name other bases do not touch
      it, whatever came before (from this file or an earlier one). */
  lemma LastLineForBaseWins(d: Dir, lines: seq<string>, k: nat)
    requires d.Valid()
    requires k < |lines| && ParseLine(lines[k]).Data? && LineBase(lines[k]).Some?
    requires ReadLines(d, lines[..k]).outcome == Complete
    requires forall i :: k < i < |lines| ==> LineBase(lines[i]) != LineBase(lines[k])
    ensures var e := ParseLine(lines[k]).entry;
      var r := ReadLines(d, lines).dir;
      r.FindBase(e.call) == Some(NewHost(e.url, e.ip4addr, e.ip6addr, e.port))
  {
    var e := ParseLine(lines[k]).entry;
    var b := Base(e.call).value;
    BaseSpec(e.call);
    var before := ReadLines(d, lines[..k]).dir;
    ReadLinesPreservesValid(d, lines[..k]);
    var after := Apply(before, e);
    UpdateThenLookups(before, e.call, e.url, e.ip4addr, e.ip6addr, e.port);
    UpdatePreservesValid(before, e.call, e.url, e.ip4addr, e.ip6addr, e.port);
    ReadLinesAt(d, lines, k);
    var rest := lines[k + 1..];
    forall i | 0 <= i < |rest| ensures LineBase(rest[i]) != Some(b) {
      assert rest[i] == lines[k + 1 + i];
    }
    ReadLinesKeepsUntouchedBase(after, rest, b);
  }

  /** Reading past a data line at index k: the lines before it, then the
      line, then the lines after it. */
  lemma ReadLinesAt(d: Dir, lines: seq<string>, k: nat)
    requires k < |lines| && ParseLine(lines[k]).Data?
    requires ReadLines(d, lines[..k]).outcome == Complete
    ensures ReadLines(d, lines)
         == ReadLines(Apply(ReadLines(d, lines[..k]).dir, ParseLine(lines[k]).entry), lines[k + 1..])
  {
    var pre, post := lines[..k], lines[k..];
    var mid := ReadLines(d, pre).dir;
    assert lines == pre + post;
    assert post != [] && post[0] == lines[k] && post[1..] == lines[k + 1..];
    ReadLinesAppend(d, pre, post);
    ReadDataLine(mid, post);
  }

  /** The override file wins: a base whose last mention is in the override
      file gets the record of that line. */
  lemma CfgOverridesCsv(csv: seq<string>, cfg: seq<string>, k: nat)
    requires ReadLines(Empty, csv).outcome == Complete
    requires k < |cfg| && ParseLine(cfg[k]).Data? && LineBase(cfg[k]).Some?
    requires ReadLines(ReadLines(Empty, csv).dir, cfg[..k]).outcome == Complete
    requires forall i :: k < i < |cfg| ==> LineBase(cfg[i]) != LineBase(cfg[k])
    ensures var e := ParseLine(cfg[k]).entry;
      ReadAll(csv, cfg).dir.FindBase(e.call) == Some(NewHost(e.url, e.ip4addr, e.ip6addr, e.port))
  {
    EmptyIsValid();
    ReadLinesPreservesValid(Empty, csv);
    LastLineForBaseWins(ReadLines(Empty, csv).dir, cfg, k);
  }
}
