/** `CM17RouteMap`: the directory object. It owns the base table
    (`baseMap`) and the alias table (`cs2baseMap`) and changes them in
    place; each method is proved against the functions of `Directory`,
    `Loading` and `Saving` on the value of the two tables. */
module RouteMapObject {
  import opened Text
  import opened Callsign
  import opened Directory
  import opened Loading
  import opened Saving

  /** The body of the read loop for one line: trim it, skip it when blank
      or a comment, split it on commas and parse the port of the fifth
      field, narrowed to 16 bits. */
  method ClassifyLine(raw: string) returns (r: Line)
    ensures r == ParseLine(raw)
  {
    var line := Trim(raw);
    if |line| == 0 || line[0] == '#' {
      return Skip;
    }
    var elem := Split(line, ',');
    if |elem| < 5 {
      return Bad(MissingFields);
    }
    var port := ParseDecimal(elem[4]);
    if port.None? {
      return Bad(BadPort);
    }
    r := Data(Entry(elem[0], elem[1], elem[2], elem[3], port.value % 0x1_0000));
  }

  class RouteMap {
    /** Base callsign to host record. */
    var baseMap: map<string, Host>
    /** Full callsign (alias) to base callsign. */
    var cs2baseMap: map<string, string>

    /** The two tables as a value. */
    function State(): Dir
      reads this
    {
      Dir(cs2baseMap, baseMap)
    }

    ghost predicate Valid()
      reads this
    {
      State().Valid()
    }

    constructor ()
      ensures Valid() && State() == Empty
    {
      baseMap := map[];
      cs2baseMap := map[];
    }

    function Find(call: string): Option<Host>
      reads this
    {
      State().Find(call)
    }

    function FindBase(call: string): Option<Host>
      reads this
    {
      State().FindBase(call)
    }

    method Update(call: string, url: string, ip4addr: string, ip6addr: string, port: Port)
      requires Valid()
      modifies this
      ensures Valid()
      ensures State() == old(State()).Update(call, url, ip4addr, ip6addr, port)
    {
      UpdatePreservesValid(State(), call, url, ip4addr, ip6addr, port);
      var pos := FirstDelimiter(call);
      if pos.Some? && pos.value < MinBaseLength {
        return;
      }
      var base: string;
      if call !in cs2baseMap {
        base := if pos.None? then call else call[..pos.value];
        cs2baseMap := cs2baseMap[call := base];
      } else {
        base := cs2baseMap[call];
      }
      var host := Host("", "", "", port);
      if url != "" {
        host := host.(url := url);
      }
      if ip4addr != "" && ip4addr != "none" {
        host := host.(ip4addr := ip4addr);
      }
      if ip6addr != "" && ip6addr != "none" {
        host := host.(ip6addr := ip6addr);
      }
      baseMap := baseMap[base := host];
    }

    method Erase(call: string)
      requires Valid()
      modifies this
      ensures Valid()
      ensures State() == old(State()).Erase(call)
    {
      if call in cs2baseMap {
        cs2baseMap := cs2baseMap - {call};
      }
    }

    /** The number of aliases. */
    method Size() returns (n: nat)
      ensures n == |cs2baseMap|
    {
      n := |cs2baseMap|;
    }

    /** Every alias exactly once, in an order this model leaves open. */
    method GetKeys() returns (keys: seq<string>)
      ensures forall k :: k in keys <==> k in cs2baseMap
      ensures forall i, j :: 0 <= i < j < |keys| ==> keys[i] != keys[j]
      ensures |keys| == |cs2baseMap|
    {
      keys := [];
      var remaining := cs2baseMap.Keys;
      while remaining != {}
        invariant remaining <= cs2baseMap.Keys
        invariant forall k :: k in keys <==> k in cs2baseMap && k !in remaining
        invariant forall i, j :: 0 <= i < j < |keys| ==> keys[i] != keys[j]
        invariant |keys| + |remaining| == |cs2baseMap|
        decreases remaining
      {
        var k :| k in remaining;
        keys := keys + [k];
        remaining := remaining - {k};
      }
    }

    /** The override file's lines: one per alias whose base has a record
        with an empty url, none for any other alias. */
    method Save() returns (lines: seq<string>)
      ensures forall a :: IsSaved(State(), a) ==> SaveLine(a, SavedHost(State(), a)) in lines
      ensures forall l :: l in lines ==> l in SavedLines(State())
      ensures |lines| == |SavedAliases(State())|
    {
      lines := [];
      ghost var written: set<string> := {};
      var remaining := cs2baseMap.Keys;
      while remaining != {}
        invariant remaining <= cs2baseMap.Keys
        invariant forall a :: a in written <==> a in cs2baseMap && a !in remaining && IsSaved(State(), a)
        invariant forall a :: a in written ==> SaveLine(a, SavedHost(State(), a)) in lines
        invariant forall l :: l in lines ==> l in SavedLines(State())
        invariant |lines| == |written|
        decreases remaining
      {
        var alias :| alias in remaining;
        remaining := remaining - {alias};
        if cs2baseMap[alias] in baseMap {
          var host := baseMap[cs2baseMap[alias]];
          if host.url == "" {
            var line := alias + ",," + host.ip4addr + "," + host.ip6addr + "," + Decimal(host.port) + ",,";
            SaveLineText(alias, host);
            lines := lines + [line];
            written := written + {alias};
          }
        }
      }
      assert written == SavedAliases(State());
    }

    /** Loads the lines of one host file, stopping where a line throws. */
    method Read(lines: seq<string>) returns (outcome: Outcome)
      requires Valid()
      modifies this
      ensures Valid()
      ensures Load(State(), outcome) == ReadLines(old(State()), lines)
    {
      var i := 0;
      while i < |lines|
        invariant 0 <= i <= |lines|
        invariant Valid()
        invariant ReadLines(old(State()), lines) == ReadLines(State(), lines[i..])
      {
        ghost var rest := lines[i..];
        assert rest[0] == lines[i] && rest[1..] == lines[i + 1..];
        var parsed := ClassifyLine(lines[i]);
        match parsed {
          case Skip =>
            ReadOtherLine(State(), rest);
          case Bad(err) =>
            ReadOtherLine(State(), rest);
            return Aborted(err);
          case Data(e) =>
            ReadDataLine(State(), rest);
            Update(e.call, e.url, e.ip4addr, e.ip6addr, e.port);
        }
        i := i + 1;
      }
      outcome := Complete;
    }

    /** Clears both tables, then loads the distribution file and, unless
        that threw, the override file. */
    method ReadAll(csv: seq<string>, cfg: seq<string>) returns (outcome: Outcome)
      requires Valid()
      modifies this
      ensures Valid()
      ensures Load(State(), outcome) == Loading.ReadAll(csv, cfg)
    {
      baseMap := map[];
      cs2baseMap := map[];
      EmptyIsValid();
      outcome := Read(csv);
      if outcome.Aborted? {
        return;
      }
      outcome := Read(cfg);
    }
  }
}
