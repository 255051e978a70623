/** Saving the override file: one line `alias,,ip4,ip6,port,,` per alias
    whose base has a record with an empty url; and reading such lines back. */
module Saving {
  import opened Text
  import opened Callsign
  import opened Directory
  import opened Loading

  /** The fields of the line written for one alias and its record: the
      url and the two trailing fields are left empty. */
  function SaveFields(alias: string, h: Host): seq<string> {
    [alias, "", h.ip4addr, h.ip6addr, Decimal(h.port), "", ""]
  }

  /** The line written for one alias and its record,
      `alias,,ip4addr,ip6addr,port,,`. */
  function SaveLine(alias: string, h: Host): (r: string)
    ensures |r| > |alias| && r[..|alias|] == alias && r[|alias|] == ','
  {
    Join(SaveFields(alias, h), ',')
  }

  /** The saved line, written out as the output stream writes it. */
  lemma SaveLineText(alias: string, h: Host)
    ensures SaveLine(alias, h) == alias + ",," + h.ip4addr + "," + h.ip6addr + "," + Decimal(h.port) + ",,"
  {
    var f := SaveFields(alias, h);
    assert f[6..] == [""];
    JoinFrom(f, ',', 5);
    JoinFrom(f, ',', 4);
    JoinFrom(f, ',', 3);
    JoinFrom(f, ',', 2);
    JoinFrom(f, ',', 1);
    JoinFrom(f, ',', 0);
    assert f[0..] == f;
  }

  /** An alias is written when its base resolves and the record has no url. */
  predicate IsSaved(d: Dir, alias: string) {
    alias in d.aliases && d.aliases[alias] in d.bases && d.bases[d.aliases[alias]].url == ""
  }

  function SavedAliases(d: Dir): (s: set<string>)
    ensures forall a :: a in s <==> IsSaved(d, a)
  {
    set a | a in d.aliases && IsSaved(d, a)
  }

  /** The lines `Save` writes, as a set: the iteration order of the alias
      table is not part of this model. */
  function SavedLines(d: Dir): (r: set<string>)
    ensures forall a :: IsSaved(d, a) ==> SaveLine(a, SavedHost(d, a)) in r
  {
    set a | a in d.aliases && IsSaved(d, a) :: SaveLine(a, d.bases[d.aliases[a]])
  }

  /** What a line must not contain for the format to read it back: the
      alias and the addresses contain no comma and no newline (which would
      end the line in the file), and the alias does not start with
      whitespace or '#'. */
  predicate Writable(alias: string, h: Host) {
    && ',' !in alias && ',' !in h.ip4addr && ',' !in h.ip6addr
    && '\n' !in alias && '\n' !in h.ip4addr && '\n' !in h.ip6addr
    && (alias == [] || (!IsSpace(alias[0]) && alias[0] != '#'))
  }

  predicate AllWritable(d: Dir) {
    forall a :: a in d.aliases && IsSaved(d, a) ==> Writable(a, d.bases[d.aliases[a]])
  }

  /** A written line parses back into the alias, an empty url, the two
      addresses and the port. */
  lemma ParseSaveLine(alias: string, h: Host)
    requires Writable(alias, h)
    ensures ParseLine(SaveLine(alias, h)) == Data(Entry(alias, "", h.ip4addr, h.ip6addr, h.port))
  {
    var fields := SaveFields(alias, h);
    var line := SaveLine(alias, h);
    JoinStart(fields, ',');
    JoinEnd(fields, ',');
    TrimUnchanged(line);
    assert Trim(line) == line;
    DecimalHasNoSeparators(h.port, ',');
    SplitJoin(fields, ',');
    assert Split(Trim(line), ',') == fields;
    DecimalRoundTrip(h.port);
    assert ParseDecimal(fields[4]) == Some(h.port as nat);
  }

  /** The record of a saved alias. */
  function SavedHost(d: Dir, a: string): Host
    requires IsSaved(d, a)
  {
    d.bases[d.aliases[a]]
  }

  /** The saved aliases whose line occurs in `lines`. */
  function Named(d: Dir, lines: seq<string>): set<string> {
    set a | a in SavedAliases(d) && SaveLine(a, SavedHost(d, a)) in lines
  }

  /** Distinct aliases give distinct lines. */
  lemma SaveLineInjective(a1: string, h1: Host, a2: string, h2: Host)
    requires Writable(a1, h1) && Writable(a2, h2)
    requires SaveLine(a1, h1) == SaveLine(a2, h2)
    ensures a1 == a2
  {
    ParseSaveLine(a1, h1);
    ParseSaveLine(a2, h2);
  }

  /** Updating `a0` with its saved fields registers `a0` and stores the
      saved record of its base; every alias that already had its saved
      record keeps it. */
  lemma UpdateWithSavedRecord(d: Dir, cur: Dir, a0: string, done: set<string>)
    requires d.Valid() && cur.Valid() && IsSaved(d, a0)
    requires forall a :: a in done ==> IsSaved(d, a) && cur.Find(a) == d.Find(a)
    ensures var h := SavedHost(d, a0);
      var next := cur.Update(a0, "", h.ip4addr, h.ip6addr, h.port);
      && next.Valid()
      && next.aliases.Keys == cur.aliases.Keys + {a0}
      && forall a :: a in done + {a0} ==> next.Find(a) == d.Find(a)
  {
    var b0 := d.aliases[a0];
    var h := d.bases[b0];
    assert Base(a0) == Some(b0);
    BaseSpec(a0);
    var next := cur.Update(a0, "", h.ip4addr, h.ip6addr, h.port);
    UpdatePreservesValid(cur, a0, "", h.ip4addr, h.ip6addr, h.port);
    UpdateThenLookups(cur, a0, "", h.ip4addr, h.ip6addr, h.port);
    assert NewHost("", h.ip4addr, h.ip6addr, h.port) == h;
    // The only record that changed is that of b0, and it now holds d's
    // record of b0; every alias keeps its base.
    forall a | a in done ensures next.Find(a) == d.Find(a) {
      assert Base(a) == Some(cur.aliases[a]) && Base(a) == Some(d.aliases[a]);
      if d.aliases[a] != b0 {
        assert next.bases[d.aliases[a]] == cur.bases[d.aliases[a]];
      }
    }
  }

  lemma NamedCons(d: Dir, lines: seq<string>, a0: string)
    requires AllWritable(d) && lines != [] && IsSaved(d, a0) && lines[0] == SaveLine(a0, SavedHost(d, a0))
    ensures Named(d, lines) == Named(d, lines[1..]) + {a0}
  {
    assert lines == [lines[0]] + lines[1..];
    forall a | a in Named(d, lines) && a !in Named(d, lines[1..]) ensures a == a0 {
      SaveLineInjective(a, SavedHost(d, a), a0, SavedHost(d, a0));
    }
  }

  /** The alias a saved line was written for. */
  lemma SavedAliasOf(d: Dir, l: string) returns (a: string)
    requires l in SavedLines(d)
    ensures IsSaved(d, a) && l == SaveLine(a, SavedHost(d, a))
  {
    a :| IsSaved(d, a) && l == SaveLine(a, SavedHost(d, a));
  }

  /** `r`, the result of reading `lines` into `cur`, completed, registered
      the aliases of the lines, and left every alias of `done` and of the
      lines with the record it has in `d`. */
  ghost predicate Restores(d: Dir, cur: Dir, r: Load, lines: seq<string>, done: set<string>) {
    && r.outcome == Complete
    && r.dir.aliases.Keys == cur.aliases.Keys + Named(d, lines)
    && (forall a :: a in done + Named(d, lines) ==> r.dir.Find(a) == d.Find(a))
  }

  /** The inductive step of `ReadSavedLines`: restoring the rest of the
      lines after the first one restores all of them. */
  lemma RestoresCons(d: Dir, cur: Dir, next: Dir, r: Load, lines: seq<string>, done: set<string>, a0: string)
    requires lines != [] && Named(d, lines) == Named(d, lines[1..]) + {a0}
    requires next.aliases.Keys == cur.aliases.Keys + {a0}
    requires Restores(d, next, r, lines[1..], done + {a0})
    ensures Restores(d, cur, r, lines, done)
  {
    assert done + Named(d, lines) == (done + {a0}) + Named(d, lines[1..]);
  }

  /** Reading saved lines into any reachable directory, in any order and
      with any repetition, completes, registers their aliases, and gives
      every alias whose line was read the record it had when it was saved.
      Aliases in `done` already have that record and keep it. */
  lemma {:induction false} ReadSavedLines(d: Dir, cur: Dir, lines: seq<string>, done: set<string>)
    requires d.Valid() && AllWritable(d) && cur.Valid()
    requires forall l :: l in lines ==> l in SavedLines(d)
    requires forall a :: a in done ==> IsSaved(d, a) && cur.Find(a) == d.Find(a)
    ensures Restores(d, cur, ReadLines(cur, lines), lines, done)
    decreases |lines|
  {
    if lines == [] {
      assert Named(d, lines) == {};
    } else {
      var a0, next := ReadSavedLine(d, cur, lines, done);
      forall l | l in lines[1..] ensures l in SavedLines(d) {
        assert l in lines;
      }
      ReadSavedLines(d, next, lines[1..], done + {a0});
      RestoresCons(d, cur, next, ReadLines(cur, lines), lines, done, a0);
    }
  }

  /** Reading the first of some saved lines: it names a saved alias `a0`,
      and the directory `next` it leads to is reachable, registers `a0`,
      and gives `a0` and every alias of `done` its saved record. */
  lemma ReadSavedLine(d: Dir, cur: Dir, lines: seq<string>, done: set<string>) returns (a0: string, next: Dir)
    requires d.Valid() && AllWritable(d) && cur.Valid()
    requires lines != [] && lines[0] in SavedLines(d)
    requires forall a :: a in done ==> IsSaved(d, a) && cur.Find(a) == d.Find(a)
    ensures ReadLines(cur, lines) == ReadLines(next, lines[1..])
    ensures next.Valid() && next.aliases.Keys == cur.aliases.Keys + {a0}
    ensures forall a :: a in done + {a0} ==> IsSaved(d, a) && next.Find(a) == d.Find(a)
    ensures Named(d, lines) == Named(d, lines[1..]) + {a0}
  {
    a0 := SavedAliasOf(d, lines[0]);
    var h := SavedHost(d, a0);
    ParseSaveLine(a0, h);
    UpdateWithSavedRecord(d, cur, a0, done);
    next := cur.Update(a0, "", h.ip4addr, h.ip6addr, h.port);
    ReadDataLine(cur, lines);
    NamedCons(d, lines, a0);
  }

  /** When the file holds exactly the saved lines, every saved alias has
      its line in it. */
  lemma NamedAll(d: Dir, saved: seq<string>)
    requires forall l :: l in saved <==> l in SavedLines(d)
    ensures Named(d, saved) == SavedAliases(d)
  {
    forall a | a in SavedAliases(d) ensures a in Named(d, saved) {
      assert SaveLine(a, SavedHost(d, a)) in SavedLines(d);
    }
  }

  /** The round trip of the override file: saving a reachable directory
      and reloading with an empty distribution file gives back exactly the
      saved aliases, each with the record (empty url, both addresses, port)
      it had. Any order of the saved lines will do. */
  lemma SaveThenReload(d: Dir, saved: seq<string>)
    requires d.Valid() && AllWritable(d)
    requires forall l :: l in saved <==> l in SavedLines(d)
    ensures var r := ReadAll([], saved);
      && r.outcome == Complete
      && r.dir.aliases.Keys == SavedAliases(d)
      && forall a :: a in SavedAliases(d) ==> r.dir.Find(a) == d.Find(a)
  {
    EmptyIsValid();
    assert ReadLines(Empty, []) == Load(Empty, Complete);
    var r := ReadLines(Empty, saved);
    assert ReadAll([], saved) == r;
    ReadSavedLines(d, Empty, saved, {});
    assert Restores(d, Empty, r, saved, {});
    NamedAll(d, saved);
    assert r.dir.aliases.Keys == Named(d, saved);
  }

  /** With a distribution file that loads completely, the saved aliases are
      still restored exactly, since the override file is read last. */
  lemma SaveThenReloadOverCsv(d: Dir, csv: seq<string>, saved: seq<string>)
    requires d.Valid() && AllWritable(d)
    requires forall l :: l in saved <==> l in SavedLines(d)
    requires ReadLines(Empty, csv).outcome == Complete
    ensures var r := ReadAll(csv, saved);
      && r.outcome == Complete
      && forall a :: a in SavedAliases(d) ==> r.dir.Find(a) == d.Find(a)
  {
    EmptyIsValid();
    ReadLinesPreservesValid(Empty, csv);
    ReadSavedLines(d, ReadLines(Empty, csv).dir, saved, {});
    NamedAll(d, saved);
  }
}
