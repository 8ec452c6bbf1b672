/**
 Generating the CIDR -> country map that HAProxy reads, by a streaming merge that
 holds one run of networks at a time.
 */
module GeoipMap {
  import opened Wrappers
  import opened Networks

  datatype Version = V4 | V6

  function Width(v: Version): nat {
    if v.V4? then 32 else 128
  }

  datatype Network = Network(version: Version, prefix: Bits)

  /** One line of the map file. */
  datatype Line = Line(network: Network, code: string)

  // ---------------------------------------------------------------------
  // What a database record says

  datatype Json = Object(fields: map<string, Json>) | Text(text: string) | Other

  datatype Record = Record(network: Network, data: Json)

  function IsoCode(data: Json, field: string): Option<string> {
    if data.Object? && field in data.fields then
      var country := data.fields[field];
      if country.Object? && "iso_code" in country.fields then
        match country.fields["iso_code"]
        case Text(code) => if code == "" then None else Some(if code == "UK" then "GB" else code)
        case _ => None
      else None
    else None
  }

  /** The country, else the registered country; UK is read as GB. */
  function CountryCode(data: Json): Option<string> {
    match IsoCode(data, "country")
    case Some(code) => Some(code)
    case None => IsoCode(data, "registered_country")
  }

  /** The code a record contributes, if the map can name it. */
  function MappedCode(record: Record, mappable: set<string>): Option<string> {
    match CountryCode(record.data)
    case Some(code) => if code in mappable then Some(code) else None
    case None => None
  }

  // ---------------------------------------------------------------------
  // The reader's order: per version ascending and disjoint, IPv4 first

  ghost predicate Before(n: Network, m: Network) {
    if n.version == m.version then Below(n.prefix, m.prefix) else n.version.V4?
  }

  ghost predicate ReaderOrder(records: seq<Record>) {
    && (forall i :: 0 <= i < |records| ==> |records[i].network.prefix| <= Width(records[i].network.version))
    && (forall i, j :: 0 <= i < j < |records| ==> Before(records[i].network, records[j].network))
  }

  // ---------------------------------------------------------------------
  // The definition: group the whole database by country, take maximal blocks

  /** The database assigns this address to the country. */
  ghost predicate Assigned(records: seq<Record>, mappable: set<string>, v: Version, code: string, a: Bits) {
    exists i :: 0 <= i < |records|
      && records[i].network.version == v && records[i].network.prefix <= a
      && MappedCode(records[i], mappable) == Some(code)
  }

  ghost predicate BlockAssigned(records: seq<Record>, mappable: set<string>, v: Version, code: string, p: Bits) {
    forall a: Bits | |a| == Width(v) && p <= a :: Assigned(records, mappable, v, code, a)
  }

  ghost predicate MaximalBlock(records: seq<Record>, mappable: set<string>, line: Line) {
    var Network(v, p) := line.network;
    && |p| <= Width(v)
    && BlockAssigned(records, mappable, v, line.code, p)
    && (p == [] || !BlockAssigned(records, mappable, v, line.code, Parent(p)))
  }

  /** The lines are the maximal aligned blocks of every country's address set, each once, in order. */
  ghost predicate IsGlobalMerge(records: seq<Record>, mappable: set<string>, lines: seq<Line>) {
    && OrderedLines(lines)
    && forall line :: line in lines <==> MaximalBlock(records, mappable, line)
  }

  ghost predicate OrderedLines(lines: seq<Line>) {
    forall i, j :: 0 <= i < j < |lines| ==> Before(lines[i].network, lines[j].network)
  }

  // ---------------------------------------------------------------------
  // The streaming merge

  function AsLines(v: Version, code: string, prefixes: seq<Bits>): (lines: seq<Line>)
    ensures |lines| == |prefixes|
    ensures forall i :: 0 <= i < |lines| ==> lines[i] == Line(Network(v, prefixes[i]), code)
  {
    seq(|prefixes|, i requires 0 <= i < |prefixes| => Line(Network(v, prefixes[i]), code))
  }

  ghost predicate LinesCover(lines: seq<Line>, v: Version, code: string, a: Bits) {
    exists i :: 0 <= i < |lines| && lines[i].code == code && lines[i].network.version == v
      && lines[i].network.prefix <= a
  }

  ghost predicate AllBefore(lines: seq<Line>, n: Network) {
    forall i :: 0 <= i < |lines| ==> Before(lines[i].network, n)
  }

  /** Two neighbouring lines of one country and version cannot be merged. */
  ghost predicate Compact(lines: seq<Line>) {
    forall i :: 0 <= i < |lines| - 1 ==> !Mergeable(lines[i], lines[i + 1])
  }

  ghost predicate Mergeable(l: Line, m: Line) {
    && l.code == m.code && l.network.version == m.network.version
    && Siblings(l.network.prefix, m.network.prefix)
  }

  ghost predicate LinesFit(lines: seq<Line>) {
    forall i :: 0 <= i < |lines| ==> |lines[i].network.prefix| <= Width(lines[i].network.version)
  }

  /** The lines so far stand for the records so far. */
  ghost predicate StandFor(lines: seq<Line>, records: seq<Record>, mappable: set<string>) {
    && OrderedLines(lines) && LinesFit(lines)
    && (forall v, code, a: Bits | |a| == Width(v) ::
          LinesCover(lines, v, code, a) <==> Assigned(records, mappable, v, code, a))
    && (forall n: Network | forall i :: 0 <= i < |records| ==> Before(records[i].network, n) :: AllBefore(lines, n))
  }

  /**
   Between two records: `run` is the run being collected, `out` what was
   written before it, and a country or version change separates the two.
   */
  ghost predicate Streaming(
    out: seq<Line>, run: seq<Bits>, v: Version, code: Option<string>, records: seq<Record>, mappable: set<string>
  ) {
    && (if run == [] then out == [] && code.None? else code.Some?)
    && StandFor(Unflushed(out, run, v, code), records, mappable)
    && Compact(out)
    && (out != [] ==> !EndsIn(out, v, code))
  }

  ghost function Unflushed(out: seq<Line>, run: seq<Bits>, v: Version, code: Option<string>): seq<Line> {
    if run == [] || code.None? then out else out + AsLines(v, code.value, run)
  }

  ghost predicate EndsIn(lines: seq<Line>, v: Version, code: Option<string>)
    requires lines != []
  {
    Some(lines[|lines| - 1].code) == code && lines[|lines| - 1].network.version == v
  }

  /** `lines` is `out` followed by the run's blocks, and `written` counts them. */
  ghost predicate Written(
    out: seq<Line>, run: seq<Bits>, v: Version, code: Option<string>, lines: seq<Line>, written: nat
  ) {
    if run == [] || code.None? then lines == out && written == 0
    else exists blocks: seq<Bits> ::
      && blocks != [] && lines == out + AsLines(v, code.value, blocks) && written == |blocks|
      && Replaces(blocks, run, Width(v)) && Ascending(blocks) && NeighboursAreNotSiblings(blocks)
  }

  method WriteRun(out: seq<Line>, run: seq<Bits>, v: Version, code: Option<string>)
    returns (lines: seq<Line>, written: nat)
    requires run != [] && code.Some? ==> Ascending(run) && Fit(run, Width(v))
    ensures Written(out, run, v, code, lines, written)
  {
    if run == [] || code.None? {
      return out, 0;
    }
    var blocks := CollapseAddresses(run, Width(v));
    lines := out;
    written := 0;
    for k := 0 to |blocks|
      invariant lines == out + AsLines(v, code.value, blocks[..k])
      invariant written == k
    {
      lines := lines + [Line(Network(v, blocks[k]), code.value)];
      written := written + 1;
    }
    assert blocks[..|blocks|] == blocks;
  }

  lemma RunIsWritten(out: seq<Line>, run: seq<Bits>, v: Version, code: Option<string>,
                     lines: seq<Line>, written: nat, records: seq<Record>, mappable: set<string>)
    requires Streaming(out, run, v, code, records, mappable) && Written(out, run, v, code, lines, written)
    ensures StandFor(lines, records, mappable) && Compact(lines)
    ensures |lines| == |out| + written
    ensures lines != [] ==> EndsIn(lines, v, code)
  {
    if run != [] {
      var blocks :|
        && blocks != [] && lines == out + AsLines(v, code.value, blocks) && written == |blocks|
        && Replaces(blocks, run, Width(v)) && Ascending(blocks) && NeighboursAreNotSiblings(blocks);
      Flushed(out, run, v, code.value, blocks, records, mappable);
      CompactGrows(out, v, code.value, blocks);
    }
  }

  lemma CoverOfConcat(x: seq<Line>, y: seq<Line>, v: Version, code: string, a: Bits)
    ensures LinesCover(x + y, v, code, a) <==> LinesCover(x, v, code, a) || LinesCover(y, v, code, a)
  {
    var both := x + y;
    assert forall i :: 0 <= i < |x| ==> both[i] == x[i];
    assert forall i :: 0 <= i < |y| ==> both[|x| + i] == y[i];
  }

  lemma CoverOfRun(w: Version, c: string, ps: seq<Bits>, v: Version, code: string, a: Bits)
    ensures LinesCover(AsLines(w, c, ps), v, code, a) <==> v == w && code == c && Covers(ps, a)
  {
    var lines := AsLines(w, c, ps);
    if v == w && code == c && Covers(ps, a) {
      var i :| 0 <= i < |ps| && ps[i] <= a;
      assert lines[i].network.prefix <= a;
    }
  }

  /** Writing a run out collapsed instead of as it was read loses nothing. */
  lemma Flushed(out: seq<Line>, run: seq<Bits>, v: Version, code: string, blocks: seq<Bits>,
                records: seq<Record>, mappable: set<string>)
    requires StandFor(out + AsLines(v, code, run), records, mappable)
    requires run != [] && Replaces(blocks, run, Width(v)) && Ascending(blocks)
    ensures StandFor(out + AsLines(v, code, blocks), records, mappable)
  {
    var raw := out + AsLines(v, code, run);
    var merged := out + AsLines(v, code, blocks);
    assert forall i :: 0 <= i < |out| ==> raw[i] == out[i] && merged[i] == out[i];
    assert forall i :: 0 <= i < |run| ==> raw[|out| + i] == Line(Network(v, run[i]), code);
    assert forall i :: |out| <= i < |merged| ==> merged[i] == Line(Network(v, blocks[i - |out|]), code);
    forall i, j | 0 <= i < j < |merged| ensures Before(merged[i].network, merged[j].network) {
      if i < |out| <= j {
        OutBeforeBlocks(out[i].network, run, v, blocks, raw, |out|, i);
      }
    }
    forall w, c, a: Bits | |a| == Width(w)
      ensures LinesCover(merged, w, c, a) <==> LinesCover(raw, w, c, a)
    {
      CoverOfConcat(out, AsLines(v, code, run), w, c, a);
      CoverOfConcat(out, AsLines(v, code, blocks), w, c, a);
      CoverOfRun(v, code, run, w, c, a);
      CoverOfRun(v, code, blocks, w, c, a);
    }
    forall n: Network | AllBefore(raw, n) ensures AllBefore(merged, n) {
      RunBefore(run, v, blocks, raw, |out|, n);
    }
  }

  lemma OutBeforeBlocks(n: Network, run: seq<Bits>, v: Version, blocks: seq<Bits>, raw: seq<Line>, start: nat, i: nat)
    requires OrderedLines(raw) && i < start && |raw| == start + |run| && raw[i].network == n
    requires forall k :: 0 <= k < |run| ==> raw[start + k].network == Network(v, run[k])
    requires run != [] && Replaces(blocks, run, Width(v))
    ensures forall k :: 0 <= k < |blocks| ==> Before(n, Network(v, blocks[k]))
  {
    forall k | 0 <= k < |run| ensures Before(n, Network(v, run[k])) {
      assert Before(raw[i].network, raw[start + k].network);
    }
    if n.version == v {
      assert AllAbove(run, n.prefix);
    } else {
      assert Before(n, Network(v, run[0]));
    }
  }

  lemma RunBefore(run: seq<Bits>, v: Version, blocks: seq<Bits>, raw: seq<Line>, start: nat, n: Network)
    requires AllBefore(raw, n) && |raw| == start + |run|
    requires forall k :: 0 <= k < |run| ==> raw[start + k].network == Network(v, run[k])
    requires run != [] && Replaces(blocks, run, Width(v))
    ensures forall k :: 0 <= k < |blocks| ==> Before(Network(v, blocks[k]), n)
  {
    forall k | 0 <= k < |run| ensures Before(Network(v, run[k]), n) {
      assert Before(raw[start + k].network, n);
    }
    if n.version == v {
      assert AllBelow(run, n.prefix);
    } else {
      assert Before(Network(v, run[0]), n);
    }
  }

  lemma OneMore(lines: seq<Line>, records: seq<Record>, record: Record, mappable: set<string>)
    requires StandFor(lines, records, mappable) && ReaderOrder(records + [record])
    ensures MappedCode(record, mappable).None? ==> StandFor(lines, records + [record], mappable)
    ensures MappedCode(record, mappable).Some? ==>
      StandFor(lines + [Line(record.network, MappedCode(record, mappable).value)], records + [record], mappable)
  {
    var longer := records + [record];
    assert longer[|records|] == record;
    assert forall i :: 0 <= i < |records| ==> longer[i] == records[i];
    var code := MappedCode(record, mappable);
    var more := if code.Some? then lines + [Line(record.network, code.value)] else lines;
    assert AllBefore(lines, record.network) by {
      forall i | 0 <= i < |records| ensures Before(records[i].network, record.network) {
        assert Before(longer[i].network, longer[|records|].network);
      }
    }
    assert forall i :: 0 <= i < |lines| ==> more[i] == lines[i];
    assert code.Some? ==> more[|lines|] == Line(record.network, code.value);
    forall v, c, a: Bits | |a| == Width(v)
      ensures LinesCover(more, v, c, a) <==> Assigned(longer, mappable, v, c, a)
    {
      assert Assigned(longer, mappable, v, c, a) <==>
        Assigned(records, mappable, v, c, a)
        || (record.network.version == v && record.network.prefix <= a && code == Some(c));
      assert LinesCover(more, v, c, a) <==>
        LinesCover(lines, v, c, a)
        || (code == Some(c) && record.network.version == v && record.network.prefix <= a);
    }
    forall n: Network | forall i :: 0 <= i < |longer| ==> Before(longer[i].network, n)
      ensures AllBefore(more, n)
    {
      assert Before(longer[|records|].network, n);
      assert forall i :: 0 <= i < |records| ==> Before(records[i].network, n);
      assert AllBefore(lines, n);
    }
  }

  lemma CompactGrows(out: seq<Line>, v: Version, code: string, blocks: seq<Bits>)
    requires Compact(out) && NeighboursAreNotSiblings(blocks) && blocks != []
    requires out != [] ==> !(out[|out| - 1].code == code && out[|out| - 1].network.version == v)
    ensures Compact(out + AsLines(v, code, blocks))
  {
    var lines := out + AsLines(v, code, blocks);
    forall i | 0 <= i < |lines| - 1 ensures !Mergeable(lines[i], lines[i + 1]) {
      if i < |out| - 1 {
        assert lines[i] == out[i] && lines[i + 1] == out[i + 1];
      } else if |out| <= i {
        assert lines[i] == Line(Network(v, blocks[i - |out|]), code);
        assert lines[i + 1] == Line(Network(v, blocks[i + 1 - |out|]), code);
        assert !Siblings(blocks[i - |out|], blocks[i - |out| + 1]);
      }
    }
  }

  lemma RunIsAscending(out: seq<Line>, run: seq<Bits>, v: Version, code: string)
    requires OrderedLines(out + AsLines(v, code, run)) && LinesFit(out + AsLines(v, code, run))
    ensures Ascending(run) && Fit(run, Width(v))
  {
    var lines := out + AsLines(v, code, run);
    forall i | 0 <= i < |run| ensures lines[|out| + i] == Line(Network(v, run[i]), code) {
    }
    forall i, j | 0 <= i < j < |run| ensures Below(run[i], run[j]) {
      assert Before(lines[|out| + i].network, lines[|out| + j].network);
    }
    forall i | 0 <= i < |run| ensures |run[i]| <= Width(v) {
      assert |lines[|out| + i].network.prefix| <= Width(v);
    }
  }

  lemma CollectedRunIsAscending(out: seq<Line>, run: seq<Bits>, v: Version, code: Option<string>,
                                records: seq<Record>, mappable: set<string>)
    requires Streaming(out, run, v, code, records, mappable)
    ensures Ascending(run) && Fit(run, Width(v))
  {
    if run != [] {
      RunIsAscending(out, run, v, code.value);
    }
  }

  lemma NothingRead(mappable: set<string>)
    ensures Streaming([], [], V4, None, [], mappable)
  {
  }

  lemma ReaderOrderOfPrefix(records: seq<Record>, k: nat)
    requires ReaderOrder(records) && k < |records|
    ensures ReaderOrder(records[..k] + [records[k]])
    ensures records[..k] + [records[k]] == records[..k + 1]
  {
  }

  lemma RecordSkipped(out: seq<Line>, run: seq<Bits>, v: Version, code: Option<string>,
                      records: seq<Record>, record: Record, mappable: set<string>)
    requires Streaming(out, run, v, code, records, mappable) && ReaderOrder(records + [record])
    requires MappedCode(record, mappable).None?
    ensures Streaming(out, run, v, code, records + [record], mappable)
  {
    OneMore(Unflushed(out, run, v, code), records, record, mappable);
  }

  lemma RunStarts(out: seq<Line>, records: seq<Record>, record: Record, mappable: set<string>)
    requires StandFor(out, records, mappable) && Compact(out) && ReaderOrder(records + [record])
    requires MappedCode(record, mappable).Some?
    requires out != [] ==> !EndsIn(out, record.network.version, MappedCode(record, mappable))
    ensures Streaming(out, [record.network.prefix], record.network.version, MappedCode(record, mappable),
                      records + [record], mappable)
  {
    var code := MappedCode(record, mappable).value;
    OneMore(out, records, record, mappable);
    assert out + AsLines(record.network.version, code, [record.network.prefix]) == out + [Line(record.network, code)];
  }

  lemma RunContinues(out: seq<Line>, run: seq<Bits>, records: seq<Record>, record: Record, mappable: set<string>)
    requires MappedCode(record, mappable).Some? && ReaderOrder(records + [record])
    requires Streaming(out, run, record.network.version, MappedCode(record, mappable), records, mappable)
    ensures Streaming(out, run + [record.network.prefix], record.network.version, MappedCode(record, mappable),
                      records + [record], mappable)
  {
    var v, code := record.network.version, MappedCode(record, mappable).value;
    var longer := run + [record.network.prefix];
    OneMore(Unflushed(out, run, v, Some(code)), records, record, mappable);
    assert out + AsLines(v, code, longer) == out + AsLines(v, code, run) + [Line(record.network, code)];
  }

  // ---------------------------------------------------------------------
  // generate_map_file

  /** What the file on the runtime volume holds. */
  datatype MapFile = Missing | Stub | Lines(lines: seq<Line>)

  /** What iterating the database does: it may stop with a ValueError. */
  datatype Reading = Reading(records: seq<Record>, failed: bool)

  datatype GeoipError = CannotEnumerate

  /** The records the reader yields, merged run by run. */
  method MergeRecords(records: seq<Record>, mappable: set<string>) returns (lines: seq<Line>, entries: nat)
    requires ReaderOrder(records)
    ensures IsGlobalMerge(records, mappable, lines) && entries == |lines|
  {
    hide Streaming, StandFor, ReaderOrder, IsGlobalMerge, Compact, OrderedLines;
    var out: seq<Line> := [];
    entries := 0;
    var run: seq<Bits> := [];
    var runCode: Option<string> := None;
    var runVersion := V4;
    NothingRead(mappable);
    for k := 0 to |records|
      invariant Streaming(out, run, runVersion, runCode, records[..k], mappable)
      invariant entries == |out|
    {
      ghost var seen := records[..k];
      ReaderOrderOfPrefix(records, k);
      var network := records[k].network;
      var code := CountryCode(records[k].data);
      if code.None? || code.value !in mappable {
        RecordSkipped(out, run, runVersion, runCode, seen, records[k], mappable);
      } else if code != runCode || network.version != runVersion {
        CollectedRunIsAscending(out, run, runVersion, runCode, seen, mappable);
        var flushed, written := WriteRun(out, run, runVersion, runCode);
        RunIsWritten(out, run, runVersion, runCode, flushed, written, seen, mappable);
        out, entries := flushed, entries + written;
        RunStarts(out, seen, records[k], mappable);
        run, runCode, runVersion := [network.prefix], code, network.version;
      } else {
        RunContinues(out, run, seen, records[k], mappable);
        run := run + [network.prefix];
      }
    }
    assert records[..|records|] == records;
    CollectedRunIsAscending(out, run, runVersion, runCode, records, mappable);
    var written;
    lines, written := WriteRun(out, run, runVersion, runCode);
    RunIsWritten(out, run, runVersion, runCode, lines, written, records, mappable);
    entries := entries + written;
    CompactIsGlobalMerge(lines, records, mappable);
  }

  class CountryMap {
    const mappable: set<string>
    var file: MapFile

    constructor (mappable: set<string>)
      ensures this.mappable == mappable && file == Missing
    {
      this.mappable := mappable;
      file := Missing;
    }

    method EnsureMapFileExists()
      modifies this
      ensures file == if old(file).Missing? then Stub else old(file)
    {
      if file.Missing? {
        file := Stub;
      }
    }

    /** Replaces the file only when the whole database was read. */
    method GenerateMapFile(database: Option<Reading>) returns (r: Result<nat, GeoipError>)
      requires database.Some? ==> ReaderOrder(database.value.records)
      modifies this
      ensures database.None? ==> r == Success(0) && file == (if old(file).Missing? then Stub else old(file))
      ensures database.Some? && database.value.failed ==> r == Failure(CannotEnumerate) && file == old(file)
      ensures database.Some? && !database.value.failed ==>
        && file.Lines?
        && IsGlobalMerge(database.value.records, mappable, file.lines)
        && r == Success(|file.lines|)
    {
      if database.None? {
        EnsureMapFileExists();
        return Success(0);
      }
      if database.value.failed {
        var _, _ := MergeRecords(database.value.records, mappable);
        return Failure(CannotEnumerate);
      }
      var lines, entries := MergeRecords(database.value.records, mappable);
      file := Lines(lines);
      r := Success(entries);
    }
  }

  // ---------------------------------------------------------------------
  // Streamed lines are the global grouping

  /** No two lines of one country are siblings, neighbours or not. */
  lemma NoSiblingLines(lines: seq<Line>, i: nat, j: nat)
    requires OrderedLines(lines) && Compact(lines) && i < |lines| && j < |lines|
    ensures !Mergeable(lines[i], lines[j])
  {
    if i + 1 < j {
      assert Before(lines[i].network, lines[i + 1].network);
      assert Before(lines[i + 1].network, lines[j].network);
      if lines[i].network.version == lines[j].network.version && Siblings(lines[i].network.prefix, lines[j].network.prefix) {
        NothingBetweenSiblings(lines[i].network.prefix, lines[i + 1].network.prefix, lines[j].network.prefix);
      }
    } else if i + 1 == j {
      assert !Mergeable(lines[i], lines[i + 1]);
    } else if j < i {
      assert Before(lines[j].network, lines[i].network);
      if lines[i].network.version == lines[j].network.version {
        BelowIsOneWay(lines[j].network.prefix, lines[i].network.prefix);
      }
    }
  }

  lemma BelowIsOneWay(p: Bits, q: Bits)
    requires Below(p, q)
    ensures !Siblings(q, p)
  {
    var d: nat :| DiffersFirstAt(p, q, d) && !p[d] && q[d];
  }

  /** A block whose addresses the lines of a country cover lies inside one of those lines. */
  lemma {:induction false} CoveredBlockIsInOneLine(lines: seq<Line>, v: Version, code: string, p: Bits) returns (k: nat)
    requires OrderedLines(lines) && Compact(lines) && |p| <= Width(v)
    requires forall a: Bits | |a| == Width(v) && p <= a :: LinesCover(lines, v, code, a)
    ensures k < |lines| && lines[k].network.version == v && lines[k].code == code && lines[k].network.prefix <= p
    decreases Width(v) - |p|
  {
    if |p| == Width(v) {
      assert LinesCover(lines, v, code, p);
      k :| 0 <= k < |lines| && lines[k].code == code && lines[k].network.version == v && lines[k].network.prefix <= p;
    } else {
      var low, high := p + [false], p + [true];
      forall a: Bits | |a| == Width(v) && (low <= a || high <= a) ensures LinesCover(lines, v, code, a) {
        assert p <= a;
      }
      var i := CoveredBlockIsInOneLine(lines, v, code, low);
      var j := CoveredBlockIsInOneLine(lines, v, code, high);
      NoSiblingLines(lines, i, j);
      var bi, bj := lines[i].network.prefix, lines[j].network.prefix;
      if bi == low && bj == high {
        assert Siblings(low, high);
      }
      k := if bi == low then j else i;
      assert lines[k].network.prefix != (if bi == low then high else low);
    }
  }

  lemma CompactIsGlobalMerge(lines: seq<Line>, records: seq<Record>, mappable: set<string>)
    requires StandFor(lines, records, mappable) && Compact(lines)
    ensures IsGlobalMerge(records, mappable, lines)
  {
    forall line: Line ensures line in lines <==> MaximalBlock(records, mappable, line) {
      if line in lines {
        LineIsMaximal(lines, records, mappable, line);
      }
      if MaximalBlock(records, mappable, line) {
        MaximalIsLine(lines, records, mappable, line);
      }
    }
  }

  lemma InsideLineIsAssigned(lines: seq<Line>, records: seq<Record>, mappable: set<string>, k: nat, p: Bits)
    requires StandFor(lines, records, mappable) && k < |lines|
    requires lines[k].network.prefix <= p
    ensures BlockAssigned(records, mappable, lines[k].network.version, lines[k].code, p)
  {
    var v := lines[k].network.version;
    forall a: Bits | |a| == Width(v) && p <= a ensures Assigned(records, mappable, v, lines[k].code, a) {
      assert LinesCover(lines, v, lines[k].code, a);
    }
  }

  lemma LineIsMaximal(lines: seq<Line>, records: seq<Record>, mappable: set<string>, line: Line)
    requires StandFor(lines, records, mappable) && Compact(lines) && line in lines
    ensures MaximalBlock(records, mappable, line)
  {
    var Network(v, p) := line.network;
    var i :| 0 <= i < |lines| && lines[i] == line;
    InsideLineIsAssigned(lines, records, mappable, i, p);
    if p != [] && BlockAssigned(records, mappable, v, line.code, Parent(p)) {
      var k := CoveredBlockIsInOneLine(lines, v, line.code, Parent(p));
    }
  }

  lemma ParentIsAssigned(lines: seq<Line>, records: seq<Record>, mappable: set<string>, k: nat, p: Bits)
    requires StandFor(lines, records, mappable) && k < |lines|
    requires lines[k].network.prefix < p
    ensures BlockAssigned(records, mappable, lines[k].network.version, lines[k].code, Parent(p))
  {
    InsideLineIsAssigned(lines, records, mappable, k, Parent(p));
  }

  lemma MaximalIsLine(lines: seq<Line>, records: seq<Record>, mappable: set<string>, line: Line)
    requires StandFor(lines, records, mappable) && Compact(lines) && MaximalBlock(records, mappable, line)
    ensures line in lines
  {
    var Network(v, p) := line.network;
    var k := CoveredBlockIsInOneLine(lines, v, line.code, p);
    if lines[k].network.prefix == p {
      assert lines[k] == line;
    } else {
      ParentIsAssigned(lines, records, mappable, k, p);
    }
  }

  // ---------------------------------------------------------------------
  // Looking addresses up

  /** HAProxy's map_ip: the code of the longest matching network. */
  function MapIp(lines: seq<Line>, v: Version, a: Bits): Option<Line> {
    if lines == [] then None
    else
      var line := lines[|lines| - 1];
      var other := MapIp(lines[..|lines| - 1], v, a);
      if line.network.version == v && line.network.prefix <= a
         && (other.None? || |other.value.network.prefix| <= |line.network.prefix|)
      then Some(line)
      else other
  }

  lemma {:induction false} MapIpIsAMatch(lines: seq<Line>, v: Version, a: Bits)
    ensures match MapIp(lines, v, a)
      case Some(line) => line in lines && line.network.version == v && line.network.prefix <= a
      case None => forall line :: line in lines ==> !(line.network.version == v && line.network.prefix <= a)
  {
    if lines != [] {
      MapIpIsAMatch(lines[..|lines| - 1], v, a);
    }
  }

  /** What the database says about an address: the code of its record, if the map can name it. */
  function CountryOf(records: seq<Record>, mappable: set<string>, v: Version, a: Bits): Option<string> {
    if records == [] then None
    else if records[0].network.version == v && records[0].network.prefix <= a then MappedCode(records[0], mappable)
    else CountryOf(records[1..], mappable, v, a)
  }

  lemma {:induction false} CountryOfIsAssigned(records: seq<Record>, mappable: set<string>, v: Version, a: Bits, code: string)
    requires ReaderOrder(records)
    ensures CountryOf(records, mappable, v, a) == Some(code) <==> Assigned(records, mappable, v, code, a)
  {
    if records != [] {
      CountryOfIsAssigned(records[1..], mappable, v, a, code);
      assert forall i :: 0 <= i < |records[1..]| ==> records[1..][i] == records[i + 1];
      if records[0].network.version == v && records[0].network.prefix <= a {
        forall i | 1 <= i < |records| && records[i].network.version == v
          ensures !(records[i].network.prefix <= a)
        {
          assert Before(records[0].network, records[i].network);
          BelowExcludesPrefix(records[0].network.prefix, records[i].network.prefix, a);
        }
      }
      assert Assigned(records, mappable, v, code, a) <==>
        (records[0].network.version == v && records[0].network.prefix <= a
          && MappedCode(records[0], mappable) == Some(code))
        || Assigned(records[1..], mappable, v, code, a);
    }
  }

  lemma {:induction false} AssignedBlockHasMaximal(
    records: seq<Record>, mappable: set<string>, v: Version, code: string, p: Bits
  ) returns (q: Bits)
    requires |p| <= Width(v) && BlockAssigned(records, mappable, v, code, p)
    ensures q <= p && MaximalBlock(records, mappable, Line(Network(v, q), code))
    decreases |p|
  {
    if p != [] && BlockAssigned(records, mappable, v, code, Parent(p)) {
      q := AssignedBlockHasMaximal(records, mappable, v, code, Parent(p));
    } else {
      q := p;
    }
  }

  /** Every address looks up to its record's country, or misses when that country is not mapped. */
  lemma LookupIsTheDatabase(
    records: seq<Record>, mappable: set<string>, lines: seq<Line>, v: Version, a: Bits
  )
    requires ReaderOrder(records) && IsGlobalMerge(records, mappable, lines) && |a| == Width(v)
    ensures (match MapIp(lines, v, a) case Some(line) => Some(line.code) case None => None)
      == CountryOf(records, mappable, v, a)
  {
    match CountryOf(records, mappable, v, a) {
      case None =>
      case Some(code) =>
        CountryOfIsAssigned(records, mappable, v, a, code);
        assert BlockAssigned(records, mappable, v, code, a);
        var q := AssignedBlockHasMaximal(records, mappable, v, code, a);
        assert Line(Network(v, q), code) in lines;
    }
    MapIpIsAMatch(lines, v, a);
    match MapIp(lines, v, a) {
      case None =>
      case Some(line) =>
        assert MaximalBlock(records, mappable, line);
        assert Assigned(records, mappable, v, line.code, a);
        CountryOfIsAssigned(records, mappable, v, a, line.code);
    }
  }

  // ---------------------------------------------------------------------
  // What an address looks up to, read off its record's fields

  function LookedUp(lines: seq<Line>, v: Version, a: Bits): Option<string> {
    match MapIp(lines, v, a)
    case Some(line) => Some(line.code)
    case None => None
  }

  /** The record is an object with a country object under this field, whose ISO code is this non-empty text. */
  predicate NamesCountry(data: Json, field: string, code: string) {
    && data.Object? && field in data.fields && data.fields[field].Object?
    && "iso_code" in data.fields[field].fields && data.fields[field].fields["iso_code"] == Text(code)
    && code != ""
  }

  ghost predicate NamesNone(data: Json, field: string) {
    forall code :: !NamesCountry(data, field, code)
  }

  /** The map shows what the database calls this country: UK as GB, any other code as it is, if mappable. */
  predicate ShownAs(found: Option<string>, code: string, mappable: set<string>) {
    && (code == "UK" ==> found == if "GB" in mappable then Some("GB") else None)
    && (code != "UK" ==> found == if code in mappable then Some(code) else None)
  }

  lemma CountryOfItsRecord(records: seq<Record>, mappable: set<string>, i: nat, a: Bits)
    requires ReaderOrder(records) && i < |records| && records[i].network.prefix <= a
    ensures CountryOf(records, mappable, records[i].network.version, a) == MappedCode(records[i], mappable)
  {
    var v := records[i].network.version;
    match MappedCode(records[i], mappable) {
      case Some(code) => CountryOfIsAssigned(records, mappable, v, a, code);
      case None =>
        match CountryOf(records, mappable, v, a) {
          case None =>
          case Some(code) =>
            CountryOfIsAssigned(records, mappable, v, a, code);
            var j :| 0 <= j < |records| && records[j].network.version == v && records[j].network.prefix <= a
              && MappedCode(records[j], mappable) == Some(code);
            if i < j {
              assert Before(records[i].network, records[j].network);
              BelowExcludesPrefix(records[i].network.prefix, records[j].network.prefix, a);
            } else {
              assert j < i && Before(records[j].network, records[i].network);
              BelowExcludesPrefix(records[j].network.prefix, records[i].network.prefix, a);
            }
        }
    }
  }

  /**
   An address of a record's network looks up to that record's country; only
   where the record names none does its registered country decide; with neither,
   and outside all networks, the address misses.
   */
  lemma LookupReadsTheRecord(records: seq<Record>, mappable: set<string>, lines: seq<Line>, i: nat, a: Bits)
    requires ReaderOrder(records) && IsGlobalMerge(records, mappable, lines)
    requires i < |records| && |a| == Width(records[i].network.version) && records[i].network.prefix <= a
    ensures
      var (data, found) := (records[i].data, LookedUp(lines, records[i].network.version, a));
      && (forall code :: NamesCountry(data, "country", code) ==> ShownAs(found, code, mappable))
      && (NamesNone(data, "country") ==>
            forall code :: NamesCountry(data, "registered_country", code) ==> ShownAs(found, code, mappable))
      && (NamesNone(data, "country") && NamesNone(data, "registered_country") ==> found.None?)
  {
    LookupIsTheDatabase(records, mappable, lines, records[i].network.version, a);
    CountryOfItsRecord(records, mappable, i, a);
    hide CountryOf, ReaderOrder, IsGlobalMerge, MapIp;
    CodeIsTheFields(records[i].data);
  }

  lemma CodeIsTheFields(data: Json)
    ensures forall code :: NamesCountry(data, "country", code) ==>
      CountryCode(data) == Some(if code == "UK" then "GB" else code)
    ensures NamesNone(data, "country") ==> forall code :: NamesCountry(data, "registered_country", code) ==>
      CountryCode(data) == Some(if code == "UK" then "GB" else code)
    ensures NamesNone(data, "country") && NamesNone(data, "registered_country") ==> CountryCode(data).None?
  {
    forall field | IsoCode(data, field).Some? ensures exists code :: NamesCountry(data, field, code) {
      assert NamesCountry(data, field, data.fields[field].fields["iso_code"].text);
    }
  }

  lemma {:induction false} NoRecordMisses(records: seq<Record>, mappable: set<string>, lines: seq<Line>, v: Version, a: Bits)
    requires ReaderOrder(records) && IsGlobalMerge(records, mappable, lines) && |a| == Width(v)
    requires forall i :: 0 <= i < |records| && records[i].network.version == v ==> !(records[i].network.prefix <= a)
    ensures LookedUp(lines, v, a).None?
  {
    LookupIsTheDatabase(records, mappable, lines, v, a);
    match CountryOf(records, mappable, v, a) {
      case None =>
      case Some(code) => CountryOfIsAssigned(records, mappable, v, a, code);
    }
  }
}
