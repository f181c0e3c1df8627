/** The cluster file `TF_clusters.txt`: one tab-separated line per non-empty cluster
    after a header line, and the reader that turns such lines back into clusters of
    factor ids, integer signals and motif flags. */
module ClusterFile {
  import opened Results
  import opened Text
  import opened Sites
  import Clustering

  const LONG_MIN: int := -0x8000_0000_0000_0000
  const LONG_MAX: int := 0x7FFF_FFFF_FFFF_FFFF

  /** The titles of the eight columns; the header line is them joined by tabs. */
  const HEADER_COLUMNS: seq<string> := ["#Region", "Length", "#Sites", "TFs", "TFIDs", "Signals", "Motifs", "#Motif"]
  const HEADER: string := Join(HEADER_COLUMNS, '\t')

  /* ---------------- Writing ---------------- */

  /** `Math.round` on a double: the nearest integer, halves rounded up, saturated at
      the ends of the 64-bit range. */
  function Round(x: real): (n: int)
    ensures LONG_MIN <= n <= LONG_MAX
    ensures LONG_MIN <= (x + 0.5).Floor <= LONG_MAX ==> n as real <= x + 0.5 < n as real + 1.0
    ensures (x + 0.5).Floor < LONG_MIN ==> n == LONG_MIN
    ensures (x + 0.5).Floor > LONG_MAX ==> n == LONG_MAX
  {
    var f := (x + 0.5).Floor;
    if f < LONG_MIN then LONG_MIN else if f > LONG_MAX then LONG_MAX else f
  }

  lemma RoundInteger(k: int)
    requires LONG_MIN <= k <= LONG_MAX
    ensures Round(k as real) == k
  {
    assert (k as real + 0.5).Floor == k;
  }

  /** The region from the first member's coordinate to the last member's, printed as
      `chrom:start-end`. */
  function RegionText(c: seq<Site>): string
    requires c != []
  {
    c[0].chrom + ":" + IntToString(c[0].loc) + "-" + IntToString(c[|c| - 1].loc)
  }

  /** The region's length, both ends included. */
  function RegionWidth(c: seq<Site>): int
    requires c != []
  {
    c[|c| - 1].loc - c[0].loc + 1
  }

  /** A cluster made by the clustering pass is sorted, so its region is well formed. */
  lemma RegionOrdered(c: seq<Site>)
    requires c != [] && Clustering.SortedByLoc(c)
    ensures c[0].loc <= c[|c| - 1].loc && RegionWidth(c) >= 1
  {
  }

  predicate NamesKnown(c: seq<Site>, names: seq<string>)
  {
    forall i :: 0 <= i < |c| ==> c[i].tfId < |names|
  }

  /** `f` applied to every element, in order. */
  function Map<A, B>(s: seq<A>, f: A -> B): (r: seq<B>)
    ensures |r| == |s|
  {
    if s == [] then [] else Map(s[..|s| - 1], f) + [f(s[|s| - 1])]
  }

  lemma {:induction false} MapIndex<A, B>(s: seq<A>, f: A -> B)
    ensures forall i :: 0 <= i < |s| ==> Map(s, f)[i] == f(s[i])
  {
    if s != [] {
      MapIndex(s[..|s| - 1], f);
    }
  }

  lemma MapPrefix<A, B>(s: seq<A>, f: A -> B, i: nat)
    requires i < |s|
    ensures Map(s[..i + 1], f) == Map(s[..i], f) + [f(s[i])]
  {
    assert s[..i + 1][..i] == s[..i];
  }

  /** The factor's name; the writer is only called on known factors. */
  function NameOf(names: seq<string>, id: nat): string
  {
    if id < |names| then names[id] else ""
  }

  function NameTokens(c: seq<Site>, names: seq<string>): (r: seq<string>)
    ensures |r| == |c| && forall i :: 0 <= i < |c| ==> r[i] == NameOf(names, c[i].tfId)
  {
    if c == [] then [] else NameTokens(c[..|c| - 1], names) + [NameOf(names, c[|c| - 1].tfId)]
  }

  function IdToken(s: Site): string { IntToString(s.tfId) }

  function SignalToken(s: Site): string { IntToString(Round(s.signal)) }

  function MotifToken(s: Site): string { if s.hasMotif then "1" else "0" }

  function IdOf(s: Site): int { s.tfId }

  function RoundedSignal(s: Site): int { Round(s.signal) }

  function FlagOf(s: Site): bool { s.hasMotif }

  function Ids(c: seq<Site>): seq<int> { Map(c, IdOf) }

  function RoundedSignals(c: seq<Site>): seq<int> { Map(c, RoundedSignal) }

  function Flags(c: seq<Site>): seq<bool> { Map(c, FlagOf) }

  /** The number of members with a motif. */
  function MotifCount(c: seq<Site>): nat
  {
    multiset(Flags(c))[true]
  }

  /** The eight columns of a cluster's line. */
  function Columns(c: seq<Site>, names: seq<string>): seq<string>
    requires c != []
  {
    [RegionText(c), IntToString(RegionWidth(c)), IntToString(|c|),
     Join(NameTokens(c, names), ','), Join(Map(c, IdToken), ','),
     Join(Map(c, SignalToken), ','), Join(Map(c, MotifToken), ','), IntToString(MotifCount(c))]
  }

  /** A cluster's line, without its line break: the columns joined by tabs. */
  function ClusterLine(c: seq<Site>, names: seq<string>): string
    requires c != []
  {
    Join(Columns(c, names), '\t')
  }

  /** The line as the writer assembles it, column after column. */
  lemma LineIsJoin(c: seq<Site>, names: seq<string>)
    requires c != []
    ensures ClusterLine(c, names) ==
      RegionText(c) + "\t" + IntToString(RegionWidth(c)) + "\t" + IntToString(|c|) + "\t"
      + Join(NameTokens(c, names), ',') + "\t" + Join(Map(c, IdToken), ',') + "\t"
      + Join(Map(c, SignalToken), ',') + "\t" + Join(Map(c, MotifToken), ',') + "\t"
      + IntToString(MotifCount(c))
  {
    Join8(RegionText(c), IntToString(RegionWidth(c)), IntToString(|c|),
      Join(NameTokens(c, names), ','), Join(Map(c, IdToken), ','),
      Join(Map(c, SignalToken), ','), Join(Map(c, MotifToken), ','), IntToString(MotifCount(c)), '\t');
  }

  /** Eight columns joined by a separator. */
  lemma Join8(a0: string, a1: string, a2: string, a3: string, a4: string, a5: string, a6: string, a7: string,
              sep: char)
    ensures Join([a0, a1, a2, a3, a4, a5, a6, a7], sep) ==
      a0 + [sep] + a1 + [sep] + a2 + [sep] + a3 + [sep] + a4 + [sep] + a5 + [sep] + a6 + [sep] + a7
  {
    var cols := [a0, a1, a2, a3, a4, a5, a6, a7];
    assert cols[..1] == [a0];
    assert Join(cols[..2], sep) == a0 + [sep] + a1 by { assert cols[..2][..1] == cols[..1]; }
    assert Join(cols[..3], sep) == Join(cols[..2], sep) + [sep] + a2 by { assert cols[..3][..2] == cols[..2]; }
    assert Join(cols[..4], sep) == Join(cols[..3], sep) + [sep] + a3 by { assert cols[..4][..3] == cols[..3]; }
    assert Join(cols[..5], sep) == Join(cols[..4], sep) + [sep] + a4 by { assert cols[..5][..4] == cols[..4]; }
    assert Join(cols[..6], sep) == Join(cols[..5], sep) + [sep] + a5 by { assert cols[..6][..5] == cols[..5]; }
    assert Join(cols[..7], sep) == Join(cols[..6], sep) + [sep] + a6 by { assert cols[..7][..6] == cols[..6]; }
    assert Join(cols, sep) == Join(cols[..7], sep) + [sep] + a7 by { assert cols[..8] == cols; }
  }

  /** Every token followed by a comma, as the builders hold them before the last
      comma is deleted. */
  function Terminated(ts: seq<string>): string
  {
    if ts == [] then "" else Terminated(ts[..|ts| - 1]) + ts[|ts| - 1] + ","
  }

  lemma {:induction false} TerminatedJoin(ts: seq<string>)
    requires ts != []
    ensures Terminated(ts) == Join(ts, ',') + ","
  {
    if |ts| > 1 {
      var init := ts[..|ts| - 1];
      TerminatedJoin(init);
    }
  }

  /** What one member adds to the four builders and to the motif count. */
  lemma FormatStep(c: seq<Site>, names: seq<string>, i: nat)
    requires i < |c|
    ensures Terminated(NameTokens(c[..i + 1], names)) == Terminated(NameTokens(c[..i], names)) + NameOf(names, c[i].tfId) + ","
    ensures Terminated(Map(c[..i + 1], IdToken)) == Terminated(Map(c[..i], IdToken)) + IdToken(c[i]) + ","
    ensures Terminated(Map(c[..i + 1], SignalToken)) == Terminated(Map(c[..i], SignalToken)) + SignalToken(c[i]) + ","
    ensures Terminated(Map(c[..i + 1], MotifToken)) == Terminated(Map(c[..i], MotifToken)) + MotifToken(c[i]) + ","
    ensures multiset(Flags(c[..i + 1]))[true] == multiset(Flags(c[..i]))[true] + if c[i].hasMotif then 1 else 0
  {
    assert c[..i + 1][..i] == c[..i];
    MapPrefix(c, IdToken, i);
    MapPrefix(c, SignalToken, i);
    MapPrefix(c, MotifToken, i);
    MapPrefix(c, FlagOf, i);
  }

  /** Deleting the last comma of a builder leaves the joined tokens. */
  lemma TrimTerminated(ts: seq<string>)
    requires ts != []
    ensures |Terminated(ts)| > 0 && Terminated(ts)[..|Terminated(ts)| - 1] == Join(ts, ',')
  {
    TerminatedJoin(ts);
  }

  /** The inner loop of the writer: each member appends its name, id, rounded signal and
      motif flag to the four builders, each followed by a comma, and counts its motif. */
  method AppendMembers(c: seq<Site>, names: seq<string>)
      returns (sbTfs: string, sbTfIds: string, sbSignals: string, sbMotifs: string, totalMotifs: nat)
    requires NamesKnown(c, names)
    ensures sbTfs == Terminated(NameTokens(c, names))
    ensures sbTfIds == Terminated(Map(c, IdToken))
    ensures sbSignals == Terminated(Map(c, SignalToken))
    ensures sbMotifs == Terminated(Map(c, MotifToken))
    ensures totalMotifs == MotifCount(c)
  {
    sbTfs, sbTfIds, sbSignals, sbMotifs, totalMotifs := "", "", "", "", 0;
    for i := 0 to |c|
      invariant Appended(c, names, i, sbTfs, sbTfIds, sbSignals, sbMotifs, totalMotifs)
    {
      AppendStep(c, names, i, sbTfs, sbTfIds, sbSignals, sbMotifs, totalMotifs);
      var s := c[i];
      sbTfs := sbTfs + names[s.tfId] + ",";
      sbTfIds := sbTfIds + IntToString(s.tfId) + ",";
      sbSignals := sbSignals + IntToString(Round(s.signal)) + ",";
      sbMotifs := sbMotifs + (if s.hasMotif then "1" else "0") + ",";
      totalMotifs := totalMotifs + if s.hasMotif then 1 else 0;
    }
    assert c[..|c|] == c;
  }

  /** The four builders and the motif count after the first `i` members. */
  ghost predicate Appended(c: seq<Site>, names: seq<string>, i: nat,
                           sbTfs: string, sbTfIds: string, sbSignals: string, sbMotifs: string, totalMotifs: nat)
    requires i <= |c|
  {
    && sbTfs == Terminated(NameTokens(c[..i], names))
    && sbTfIds == Terminated(Map(c[..i], IdToken))
    && sbSignals == Terminated(Map(c[..i], SignalToken))
    && sbMotifs == Terminated(Map(c[..i], MotifToken))
    && totalMotifs == MotifCount(c[..i])
  }

  lemma AppendStep(c: seq<Site>, names: seq<string>, i: nat,
                   sbTfs: string, sbTfIds: string, sbSignals: string, sbMotifs: string, totalMotifs: nat)
    requires i < |c| && c[i].tfId < |names|
    requires Appended(c, names, i, sbTfs, sbTfIds, sbSignals, sbMotifs, totalMotifs)
    ensures Appended(c, names, i + 1, sbTfs + names[c[i].tfId] + ",", sbTfIds + IntToString(c[i].tfId) + ",",
                     sbSignals + IntToString(Round(c[i].signal)) + ",",
                     sbMotifs + (if c[i].hasMotif then "1" else "0") + ",",
                     totalMotifs + if c[i].hasMotif then 1 else 0)
  {
    FormatStep(c, names, i);
  }

  /** One cluster's line: the members' columns with the last comma of each builder
      deleted, after the region, its width and the member count, joined by tabs. */
  method FormatCluster(c: seq<Site>, names: seq<string>) returns (line: string)
    requires c != [] && NamesKnown(c, names)
    ensures line == ClusterLine(c, names)
  {
    var sbTfs, sbTfIds, sbSignals, sbMotifs, totalMotifs := AppendMembers(c, names);
    TrimTerminated(NameTokens(c, names));
    TrimTerminated(Map(c, IdToken));
    TrimTerminated(Map(c, SignalToken));
    TrimTerminated(Map(c, MotifToken));
    if |sbTfs| != 0 {
      sbTfs := sbTfs[..|sbTfs| - 1];
      sbTfIds := sbTfIds[..|sbTfIds| - 1];
      sbSignals := sbSignals[..|sbSignals| - 1];
      sbMotifs := sbMotifs[..|sbMotifs| - 1];
    }
    LineIsJoin(c, names);
    line := RegionText(c) + "\t" + IntToString(RegionWidth(c)) + "\t" + IntToString(|c|) + "\t"
            + sbTfs + "\t" + sbTfIds + "\t" + sbSignals + "\t" + sbMotifs + "\t"
            + IntToString(totalMotifs);
  }

  /** The lines of the file: the header, then one line per non-empty cluster in order;
      the empty cluster the clustering pass appends last is skipped. */
  function DataLines(clusters: seq<seq<Site>>, names: seq<string>): seq<string>
  {
    if clusters == [] then []
    else
      var c := clusters[|clusters| - 1];
      DataLines(clusters[..|clusters| - 1], names) + (if c == [] then [] else [ClusterLine(c, names)])
  }

  function FileLines(clusters: seq<seq<Site>>, names: seq<string>): seq<string>
  {
    [HEADER] + DataLines(clusters, names)
  }

  /** Lines, each ended by a line break. */
  function Unlines(ls: seq<string>): string
  {
    if ls == [] then "" else Unlines(ls[..|ls| - 1]) + ls[|ls| - 1] + "\n"
  }

  /** The text written to `TF_clusters.txt`. */
  function FileText(clusters: seq<seq<Site>>, names: seq<string>): string
  {
    Unlines(FileLines(clusters, names))
  }

  /** What one cluster adds to the written text. */
  lemma WriteStep(clusters: seq<seq<Site>>, names: seq<string>, k: nat)
    requires k < |clusters|
    ensures clusters[k] == [] ==>
      Unlines([HEADER] + DataLines(clusters[..k + 1], names)) == Unlines([HEADER] + DataLines(clusters[..k], names))
    ensures clusters[k] != [] ==>
      Unlines([HEADER] + DataLines(clusters[..k + 1], names)) ==
      Unlines([HEADER] + DataLines(clusters[..k], names)) + ClusterLine(clusters[k], names) + "\n"
  {
    DataLinesPrefix(clusters, names, k);
    var D := DataLines(clusters[..k], names);
    if clusters[k] != [] {
      var t := ClusterLine(clusters[k], names);
      DataLinesSnoc(D, t, D + [t]);
      UnlinesSnoc([HEADER] + D, t);
    } else {
      assert DataLines(clusters[..k + 1], names) == D + [] == D;
    }
  }

  /** The data lines of the first `k + 1` clusters. */
  lemma DataLinesPrefix(clusters: seq<seq<Site>>, names: seq<string>, k: nat)
    requires k < |clusters|
    ensures DataLines(clusters[..k + 1], names) ==
      DataLines(clusters[..k], names) + (if clusters[k] == [] then [] else [ClusterLine(clusters[k], names)])
  {
    assert clusters[..k + 1][..k] == clusters[..k];
  }

  lemma UnlinesSnoc(ls: seq<string>, t: string)
    ensures Unlines(ls + [t]) == Unlines(ls) + t + "\n"
  {
    assert (ls + [t])[..|ls|] == ls;
  }

  /** The output part of `findTfbsClusters`: the header, then the line of every
      non-empty cluster. */
  method WriteClusters(clusters: seq<seq<Site>>, names: seq<string>) returns (text: string)
    requires forall k :: 0 <= k < |clusters| ==> NamesKnown(clusters[k], names)
    ensures text == FileText(clusters, names)
  {
    var sb := HEADER + "\n";
    assert Unlines([HEADER]) == HEADER + "\n" by { assert [HEADER][..0] == []; }
    assert DataLines(clusters[..0], names) == [];
    for k := 0 to |clusters|
      invariant sb == Unlines([HEADER] + DataLines(clusters[..k], names))
    {
      WriteStep(clusters, names, k);
      var c := clusters[k];
      if c != [] {
        var line := FormatCluster(c, names);
        sb := sb + line + "\n";
      }
    }
    assert clusters[..|clusters|] == clusters;
    text := sb;
  }

  /* ---------------- Reading ---------------- */

  /** A cluster as `loadClusterAndTSS` holds it. The region is kept as its text, since
      region parsing is outside the model. */
  datatype LoadedCluster = LoadedCluster(region: string, tfIds: seq<int>, signals: seq<int>,
                                         hasMotifs: seq<bool>)

  /** Why reading stopped: a line had too few columns (`column` is the one asked for),
      or a token of a number column did not parse. `line` indexes the file's lines. */
  datatype LoadError = MissingColumn(line: nat, column: nat) | BadNumber(line: nat, token: string)

  /** A motif token is read with `Integer.parseInt` and compared with 1. */
  function ParseMotif(s: string): Option<bool>
  {
    match ParseInt32(s)
    case Some(v) => Some(v == 1)
    case None => None
  }

  /** Parses every token in order; the first token that does not parse is the error. */
  function ParseTokens<T>(ts: seq<string>, parse: string -> Option<T>): (r: Result<seq<T>, string>)
    ensures r.Ok? ==> |r.value| == |ts| && forall i :: 0 <= i < |ts| ==> parse(ts[i]) == Some(r.value[i])
    ensures r.Err? ==> r.error in ts && parse(r.error).None?
  {
    if ts == [] then Ok([])
    else match ParseTokens(ts[..|ts| - 1], parse)
      case Err(e) => Err(e)
      case Ok(vs) =>
        match parse(ts[|ts| - 1])
        case None => Err(ts[|ts| - 1])
        case Some(v) => Ok(vs + [v])
  }

  /** Tokens that all parse are read to exactly their values. */
  lemma {:induction false} ParseTokensAll<T>(ts: seq<string>, parse: string -> Option<T>, vs: seq<T>)
    requires |vs| == |ts| && forall i :: 0 <= i < |ts| ==> parse(ts[i]) == Some(vs[i])
    ensures ParseTokens(ts, parse) == Ok(vs)
  {
    if ts != [] {
      ParseTokensAll(ts[..|ts| - 1], parse, vs[..|vs| - 1]);
      assert vs[..|vs| - 1] + [vs[|vs| - 1]] == vs;
    }
  }

  /** A loop over the comma-separated tokens of one column, appending each value. */
  method ParseColumn<T>(ts: seq<string>, parse: string -> Option<T>) returns (r: Result<seq<T>, string>)
    ensures r == ParseTokens(ts, parse)
  {
    var values: seq<T> := [];
    for i := 0 to |ts|
      invariant ParseTokens(ts[..i], parse) == Ok(values)
    {
      assert ts[..i + 1][..i] == ts[..i];
      match parse(ts[i])
      case None =>
        ErrorPersists(ts, parse, i + 1);
        return Err(ts[i]);
      case Some(v) =>
        values := values + [v];
    }
    assert ts[..|ts|] == ts;
    r := Ok(values);
  }

  /** Once a prefix fails, every longer prefix fails with the same token. */
  lemma {:induction false} ErrorPersists<T>(ts: seq<string>, parse: string -> Option<T>, i: nat)
    requires i <= |ts| && ParseTokens(ts[..i], parse).Err?
    ensures ParseTokens(ts, parse) == ParseTokens(ts[..i], parse)
    decreases |ts| - i
  {
    if i < |ts| {
      assert ts[..i + 1][..i] == ts[..i];
      ErrorPersists(ts, parse, i + 1);
    } else {
      assert ts[..i] == ts;
    }
  }

  /** One data line. Columns are looked up in the order the code looks them up: the
      region, then the ids, the signals and the motif flags, each column parsed in full
      before the next is looked up. */
  function ParseLine(t: string, lineNo: nat): Result<LoadedCluster, LoadError>
  {
    var f := Split(t, '\t');
    if |f| < 1 then Err(MissingColumn(lineNo, 0))
    else if |f| < 5 then Err(MissingColumn(lineNo, 4))
    else match ParseTokens(Split(f[4], ','), ParseInt32)
      case Err(tok) => Err(BadNumber(lineNo, tok))
      case Ok(ids) =>
        if |f| < 6 then Err(MissingColumn(lineNo, 5))
        else match ParseTokens(Split(f[5], ','), ParseDecimal)
          case Err(tok) => Err(BadNumber(lineNo, tok))
          case Ok(signals) =>
            if |f| < 7 then Err(MissingColumn(lineNo, 6))
            else match ParseTokens(Split(f[6], ','), ParseMotif)
              case Err(tok) => Err(BadNumber(lineNo, tok))
              case Ok(motifs) => Ok(LoadedCluster(f[0], ids, signals, motifs))
  }

  /** The whole file: comment lines (starting with `#`) are skipped, and the first line
      that fails to read stops the load. */
  function ParseFile(lines: seq<string>): Result<seq<LoadedCluster>, LoadError>
  {
    if lines == [] then Ok([])
    else match ParseFile(lines[..|lines| - 1])
      case Err(e) => Err(e)
      case Ok(cs) =>
        var t := lines[|lines| - 1];
        if StartsWith(t, "#") then Ok(cs)
        else match ParseLine(t, |lines| - 1)
          case Err(e) => Err(e)
          case Ok(c) => Ok(cs + [c])
  }

  lemma {:induction false} FileErrorPersists(lines: seq<string>, i: nat)
    requires i <= |lines| && ParseFile(lines[..i]).Err?
    ensures ParseFile(lines) == ParseFile(lines[..i])
    decreases |lines| - i
  {
    if i < |lines| {
      assert lines[..i + 1][..i] == lines[..i];
      FileErrorPersists(lines, i + 1);
    } else {
      assert lines[..i] == lines;
    }
  }

  /** Reads one data line into a cluster, the three number columns by their own loops. */
  method ReadLine(t: string, lineNo: nat) returns (r: Result<LoadedCluster, LoadError>)
    ensures r == ParseLine(t, lineNo)
  {
    var f := Split(t, '\t');
    if |f| < 1 {
      return Err(MissingColumn(lineNo, 0));
    }
    var region := f[0];
    if |f| < 5 {
      return Err(MissingColumn(lineNo, 4));
    }
    var ids := ParseColumn(Split(f[4], ','), ParseInt32);
    if ids.Err? {
      return Err(BadNumber(lineNo, ids.error));
    }
    if |f| < 6 {
      return Err(MissingColumn(lineNo, 5));
    }
    var signals := ParseColumn(Split(f[5], ','), ParseDecimal);
    if signals.Err? {
      return Err(BadNumber(lineNo, signals.error));
    }
    if |f| < 7 {
      return Err(MissingColumn(lineNo, 6));
    }
    var motifs := ParseColumn(Split(f[6], ','), ParseMotif);
    if motifs.Err? {
      return Err(BadNumber(lineNo, motifs.error));
    }
    r := Ok(LoadedCluster(region, ids.value, signals.value, motifs.value));
  }

  /** The cluster part of `loadClusterAndTSS`, over the file's lines. */
  method LoadClusters(lines: seq<string>) returns (r: Result<seq<LoadedCluster>, LoadError>)
    ensures r == ParseFile(lines)
  {
    var clusters: seq<LoadedCluster> := [];
    for i := 0 to |lines|
      invariant ParseFile(lines[..i]) == Ok(clusters)
    {
      assert lines[..i + 1][..i] == lines[..i];
      var t := lines[i];
      if StartsWith(t, "#") {
        continue;
      }
      var c := ReadLine(t, i);
      if c.Err? {
        FileErrorPersists(lines, i + 1);
        return Err(c.error);
      }
      clusters := clusters + [c.value];
    }
    assert lines[..|lines|] == lines;
    r := Ok(clusters);
  }

  /* ---------------- Round trip ---------------- */

  /** What a written cluster reads back as. */
  function Loaded(c: seq<Site>): LoadedCluster
    requires c != []
  {
    LoadedCluster(RegionText(c), Ids(c), RoundedSignals(c), Flags(c))
  }

  /** What the reader gets back from the file: one cluster per non-empty cluster. */
  function LoadedAll(clusters: seq<seq<Site>>): seq<LoadedCluster>
  {
    if clusters == [] then []
    else
      var c := clusters[|clusters| - 1];
      LoadedAll(clusters[..|clusters| - 1]) + (if c == [] then [] else [Loaded(c)])
  }

  /** What the round trip needs of a site: a known factor with an id that fits an
      `int` and a name free of tabs and line breaks, and a chromosome free of them that
      cannot be mistaken for a comment line. */
  predicate SiteWritable(s: Site, names: seq<string>)
  {
    && s.tfId < |names| && s.tfId <= INT_MAX
    && '\t' !in names[s.tfId] && '\n' !in names[s.tfId]
    && '\t' !in s.chrom && '\n' !in s.chrom && !StartsWith(s.chrom, "#")
  }

  predicate Writable(c: seq<Site>, names: seq<string>)
  {
    forall i :: 0 <= i < |c| ==> SiteWritable(c[i], names)
  }

  /** A printed integer: a non-empty run of digits and minus signs. */
  predicate Printed(t: string)
  {
    t != [] && forall j :: 0 <= j < |t| ==> t[j] == '-' || IsDigit(t[j])
  }

  lemma IntToStringPrinted(n: int)
    ensures Printed(IntToString(n))
  {
    var s := IntToString(n);
    var digits := NatToString(if n < 0 then -n else n);
    assert forall j :: 0 <= j < |digits| ==> IsDigit(digits[j]);
  }

  lemma PrintedClean(t: string)
    requires Printed(t)
    ensures '\t' !in t && '\n' !in t && ',' !in t
  {
  }

  lemma {:induction false} NotInJoin(parts: seq<string>, sep: char, ch: char)
    requires ch != sep && forall i :: 0 <= i < |parts| ==> ch !in parts[i]
    ensures ch !in Join(parts, sep)
  {
    if |parts| > 1 {
      NotInJoin(parts[..|parts| - 1], sep, ch);
    }
  }

  /** A column of printed numbers holds no tab or line break. */
  lemma PrintedJoinClean(ts: seq<string>)
    requires forall i :: 0 <= i < |ts| ==> Printed(ts[i])
    ensures '\t' !in Join(ts, ',') && '\n' !in Join(ts, ',')
  {
    forall i | 0 <= i < |ts| ensures '\t' !in ts[i] && '\n' !in ts[i] {
      PrintedClean(ts[i]);
    }
    NotInJoin(ts, ',', '\t');
    NotInJoin(ts, ',', '\n');
  }

  /** A column of printed numbers splits back into its tokens at the commas. */
  lemma PrintedSplit(ts: seq<string>)
    requires ts != [] && forall i :: 0 <= i < |ts| ==> Printed(ts[i])
    ensures Split(Join(ts, ','), ',') == ts
  {
    forall i | 0 <= i < |ts| ensures ',' !in ts[i] {
      PrintedClean(ts[i]);
    }
    SplitJoin(ts, ',');
  }

  lemma TokensPrinted(c: seq<Site>)
    ensures forall i :: 0 <= i < |c| ==> Printed(Map(c, IdToken)[i])
    ensures forall i :: 0 <= i < |c| ==> Printed(Map(c, SignalToken)[i])
    ensures forall i :: 0 <= i < |c| ==> Printed(Map(c, MotifToken)[i])
  {
    MapIndex(c, IdToken);
    MapIndex(c, SignalToken);
    MapIndex(c, MotifToken);
    forall i | 0 <= i < |c|
      ensures Printed(IdToken(c[i])) && Printed(SignalToken(c[i])) && Printed(MotifToken(c[i]))
    {
      SitePrinted(c[i]);
    }
  }

  lemma SitePrinted(s: Site)
    ensures Printed(IdToken(s)) && Printed(SignalToken(s)) && Printed(MotifToken(s))
  {
    IntToStringPrinted(s.tfId);
    IntToStringPrinted(Round(s.signal));
    IntToStringPrinted(if s.hasMotif then 1 else 0);
  }

  lemma IdColumn(c: seq<Site>)
    requires c != [] && forall i :: 0 <= i < |c| ==> c[i].tfId <= INT_MAX
    ensures ParseTokens(Split(Join(Map(c, IdToken), ','), ','), ParseInt32) == Ok(Ids(c))
  {
    var ts := Map(c, IdToken);
    TokensPrinted(c);
    PrintedSplit(ts);
    MapIndex(c, IdToken);
    MapIndex(c, IdOf);
    forall i | 0 <= i < |ts| ensures ParseInt32(ts[i]) == Some(Ids(c)[i]) {
      ParseIntToString(c[i].tfId);
    }
    ParseTokensAll(ts, ParseInt32, Ids(c));
  }

  lemma SignalColumn(c: seq<Site>)
    requires c != []
    ensures ParseTokens(Split(Join(Map(c, SignalToken), ','), ','), ParseDecimal) == Ok(RoundedSignals(c))
  {
    var ts := Map(c, SignalToken);
    TokensPrinted(c);
    PrintedSplit(ts);
    MapIndex(c, SignalToken);
    MapIndex(c, RoundedSignal);
    forall i | 0 <= i < |ts| ensures ParseDecimal(ts[i]) == Some(RoundedSignals(c)[i]) {
      ParseIntToString(Round(c[i].signal));
    }
    ParseTokensAll(ts, ParseDecimal, RoundedSignals(c));
  }

  lemma MotifColumn(c: seq<Site>)
    requires c != []
    ensures ParseTokens(Split(Join(Map(c, MotifToken), ','), ','), ParseMotif) == Ok(Flags(c))
  {
    var ts := Map(c, MotifToken);
    TokensPrinted(c);
    PrintedSplit(ts);
    MapIndex(c, MotifToken);
    MapIndex(c, FlagOf);
    assert IntToString(1) == "1" && IntToString(0) == "0";
    forall i | 0 <= i < |ts| ensures ParseMotif(ts[i]) == Some(Flags(c)[i]) {
      var v := if c[i].hasMotif then 1 else 0;
      assert ts[i] == IntToString(v);
      ParseIntToString(v);
    }
    ParseTokensAll(ts, ParseMotif, Flags(c));
  }

  lemma NameColumn(c: seq<Site>, names: seq<string>)
    requires Writable(c, names)
    ensures '\t' !in Join(NameTokens(c, names), ',') && '\n' !in Join(NameTokens(c, names), ',')
  {
    var ts := NameTokens(c, names);
    forall i | 0 <= i < |ts| ensures '\t' !in ts[i] && '\n' !in ts[i] {
      assert SiteWritable(c[i], names);
    }
    NotInJoin(ts, ',', '\t');
    NotInJoin(ts, ',', '\n');
  }

  lemma RegionClean(c: seq<Site>)
    requires c != [] && '\t' !in c[0].chrom && '\n' !in c[0].chrom
    ensures '\t' !in RegionText(c) && '\n' !in RegionText(c)
  {
    IntToStringPrinted(c[0].loc);
    IntToStringPrinted(c[|c| - 1].loc);
    PrintedClean(IntToString(c[0].loc));
    PrintedClean(IntToString(c[|c| - 1].loc));
  }

  /** No column of a writable cluster's line holds a tab or a line break. */
  lemma ColumnsClean(c: seq<Site>, names: seq<string>)
    requires c != [] && Writable(c, names)
    ensures forall i :: 0 <= i < |Columns(c, names)| ==>
      '\t' !in Columns(c, names)[i] && '\n' !in Columns(c, names)[i]
    ensures Columns(c, names)[7] != ""
  {
    assert SiteWritable(c[0], names);
    RegionClean(c);
    CountsClean(c);
    NameColumn(c, names);
    TokenColumnsClean(c);
    Display8(RegionText(c), IntToString(RegionWidth(c)), IntToString(|c|),
      Join(NameTokens(c, names), ','), Join(Map(c, IdToken), ','),
      Join(Map(c, SignalToken), ','), Join(Map(c, MotifToken), ','), IntToString(MotifCount(c)));
    EightClean(Columns(c, names));
  }

  lemma CountsClean(c: seq<Site>)
    requires c != []
    ensures Clean(IntToString(RegionWidth(c))) && Clean(IntToString(|c|))
    ensures Clean(IntToString(MotifCount(c)))
  {
    IntToStringPrinted(RegionWidth(c));
    IntToStringPrinted(|c|);
    IntToStringPrinted(MotifCount(c));
  }

  lemma TokenColumnsClean(c: seq<Site>)
    ensures Clean(Join(Map(c, IdToken), ',')) && Clean(Join(Map(c, SignalToken), ','))
    ensures Clean(Join(Map(c, MotifToken), ','))
  {
    TokensPrinted(c);
    PrintedJoinClean(Map(c, IdToken));
    PrintedJoinClean(Map(c, SignalToken));
    PrintedJoinClean(Map(c, MotifToken));
  }

  /** Free of tabs and line breaks. */
  predicate Clean(t: string)
  {
    '\t' !in t && '\n' !in t
  }

  lemma EightClean(cols: seq<string>)
    requires |cols| == 8
    requires Clean(cols[0]) && Clean(cols[1]) && Clean(cols[2]) && Clean(cols[3])
    requires Clean(cols[4]) && Clean(cols[5]) && Clean(cols[6]) && Clean(cols[7])
    ensures forall i :: 0 <= i < |cols| ==> '\t' !in cols[i] && '\n' !in cols[i]
  {
    forall i | 0 <= i < |cols| ensures Clean(cols[i]) {
    }
  }

  /** A written line splits at its tabs into exactly its eight columns. */
  lemma SplitLine(c: seq<Site>, names: seq<string>)
    requires c != [] && Writable(c, names)
    ensures Split(ClusterLine(c, names), '\t') == Columns(c, names)
    ensures '\n' !in ClusterLine(c, names)
  {
    var cols := Columns(c, names);
    ColumnsClean(c, names);
    SplitJoin(cols, '\t');
    NotInJoin(cols, '\t', '\n');
  }

  lemma ColumnValues(c: seq<Site>, names: seq<string>)
    requires c != [] && Writable(c, names)
    ensures var f := Split(ClusterLine(c, names), '\t');
      && |f| == 8 && f[0] == RegionText(c) && f[1] == IntToString(RegionWidth(c))
      && f[2] == IntToString(|c|) && f[7] == IntToString(MotifCount(c))
  {
    SplitLine(c, names);
    ColumnsAt(c, names);
  }

  lemma ColumnsAt(c: seq<Site>, names: seq<string>)
    requires c != []
    ensures var cols := Columns(c, names);
      && |cols| == 8 && cols[0] == RegionText(c) && cols[1] == IntToString(RegionWidth(c))
      && cols[2] == IntToString(|c|) && cols[7] == IntToString(MotifCount(c))
  {
    Display8(RegionText(c), IntToString(RegionWidth(c)), IntToString(|c|),
      Join(NameTokens(c, names), ','), Join(Map(c, IdToken), ','),
      Join(Map(c, SignalToken), ','), Join(Map(c, MotifToken), ','), IntToString(MotifCount(c)));
  }

  /** The entries of a line of eight columns. */
  lemma Display8(a0: string, a1: string, a2: string, a3: string, a4: string, a5: string, a6: string, a7: string)
    ensures var cols := [a0, a1, a2, a3, a4, a5, a6, a7];
      && |cols| == 8 && cols[0] == a0 && cols[1] == a1 && cols[2] == a2 && cols[3] == a3
      && cols[4] == a4 && cols[5] == a5 && cols[6] == a6 && cols[7] == a7
  {
  }

  lemma ReadBack(t: string, n: int)
    requires t == IntToString(n)
    ensures ParseDecimal(t) == Some(n)
  {
    ParseIntToString(n);
  }

  /** The columns of a written line: the region from the first to the last member, the
      member count in the `#Sites` column and the number of members with a motif in
      the `#Motif` column. */
  lemma LineColumns(c: seq<Site>, names: seq<string>)
    requires c != [] && Writable(c, names)
    ensures var f := Split(ClusterLine(c, names), '\t');
      && |f| == 8
      && f[0] == c[0].chrom + ":" + IntToString(c[0].loc) + "-" + IntToString(c[|c| - 1].loc)
      && ParseDecimal(f[1]) == Some(c[|c| - 1].loc - c[0].loc + 1)
      && ParseDecimal(f[2]) == Some(|c|)
      && ParseDecimal(f[7]) == Some(MotifCount(c))
  {
    var f := Split(ClusterLine(c, names), '\t');
    ColumnValues(c, names);
    ReadBack(f[1], RegionWidth(c));
    ReadBack(f[2], |c|);
    ReadBack(f[7], MotifCount(c));
  }

  /** Reading a written line gives back the member ids, the rounded signals and the
      motif flags, in member order. */
  lemma LineRoundTrip(c: seq<Site>, names: seq<string>, lineNo: nat)
    requires c != [] && Writable(c, names)
    ensures ParseLine(ClusterLine(c, names), lineNo) == Ok(Loaded(c))
  {
    SplitLine(c, names);
    Display8(RegionText(c), IntToString(RegionWidth(c)), IntToString(|c|),
      Join(NameTokens(c, names), ','), Join(Map(c, IdToken), ','),
      Join(Map(c, SignalToken), ','), Join(Map(c, MotifToken), ','), IntToString(MotifCount(c)));
    IdColumn(c);
    SignalColumn(c);
    MotifColumn(c);
    ReadColumns(ClusterLine(c, names), lineNo, Columns(c, names), Ids(c), RoundedSignals(c), Flags(c));
  }

  /** A line whose id, signal and motif columns all read gives the cluster they spell. */
  lemma ReadColumns(t: string, lineNo: nat, f: seq<string>, ids: seq<int>, signals: seq<int>, motifs: seq<bool>)
    requires Split(t, '\t') == f && |f| >= 7
    requires ParseTokens(Split(f[4], ','), ParseInt32) == Ok(ids)
    requires ParseTokens(Split(f[5], ','), ParseDecimal) == Ok(signals)
    requires ParseTokens(Split(f[6], ','), ParseMotif) == Ok(motifs)
    ensures ParseLine(t, lineNo) == Ok(LoadedCluster(f[0], ids, signals, motifs))
  {
  }

  /** A data line never reads as a comment. */
  lemma LineNotComment(c: seq<Site>, names: seq<string>)
    requires c != [] && !StartsWith(c[0].chrom, "#")
    ensures !StartsWith(ClusterLine(c, names), "#") && ClusterLine(c, names) != ""
  {
    JoinStartsWith(Columns(c, names), '\t');
    RegionFirst(c[0].chrom, IntToString(c[0].loc), IntToString(c[|c| - 1].loc));
    NoHashPrefix(ClusterLine(c, names), RegionText(c));
  }

  /** A region's text starts with a character other than `#`. */
  lemma RegionFirst(chrom: string, a: string, b: string)
    requires !StartsWith(chrom, "#")
    ensures var r := chrom + ":" + a + "-" + b; |r| > 0 && r[0] != '#'
  {
    if chrom != [] {
      assert chrom[..1] == [chrom[0]];
    }
  }

  /** A string that starts with a non-empty text not led by `#` is not a comment. */
  lemma NoHashPrefix(line: string, region: string)
    requires 0 < |region| <= |line| && line[..|region|] == region && region[0] != '#'
    ensures !StartsWith(line, "#") && line != ""
  {
    assert line[0] == region[0];
    assert line[..1] == [line[0]];
  }

  lemma {:induction false} JoinStartsWith(parts: seq<string>, sep: char)
    requires |parts| > 0
    ensures |parts[0]| <= |Join(parts, sep)| && Join(parts, sep)[..|parts[0]|] == parts[0]
  {
    if |parts| > 1 {
      JoinStartsWith(parts[..|parts| - 1], sep);
    }
  }

  /** The header is a single non-empty line that the reader skips as a comment. */
  lemma HeaderIsComment()
    ensures StartsWith(HEADER, "#") && '\n' !in HEADER
  {
    JoinStartsWith(HEADER_COLUMNS, '\t');
    assert HEADER_COLUMNS[0][..1] == "#";
    NotInJoin(HEADER_COLUMNS, '\t', '\n');
  }

  /** Reading the lines of the file gives back every non-empty cluster, in order. */
  lemma {:induction false} FileRoundTrip(clusters: seq<seq<Site>>, names: seq<string>)
    requires forall k :: 0 <= k < |clusters| ==> Writable(clusters[k], names)
    ensures ParseFile(FileLines(clusters, names)) == Ok(LoadedAll(clusters))
  {
    if clusters == [] {
      assert FileLines(clusters, names) == [HEADER];
      assert [HEADER][..0] == [];
      HeaderIsComment();
    } else {
      FileRoundTrip(clusters[..|clusters| - 1], names);
      FileStep(clusters, names);
    }
  }

  lemma FileStep(clusters: seq<seq<Site>>, names: seq<string>)
    requires clusters != [] && Writable(clusters[|clusters| - 1], names)
    requires ParseFile(FileLines(clusters[..|clusters| - 1], names)) == Ok(LoadedAll(clusters[..|clusters| - 1]))
    ensures ParseFile(FileLines(clusters, names)) == Ok(LoadedAll(clusters))
  {
    var init := clusters[..|clusters| - 1];
    var c := clusters[|clusters| - 1];
    if c != [] {
      LinesSnoc(clusters, names);
      LoadedSnoc(clusters);
      LineAppend(FileLines(init, names), c, names, LoadedAll(init));
    } else {
      LinesSkip(clusters, names);
      LoadedSkip(clusters);
    }
  }

  /** A non-empty last cluster adds its line to the file. */
  lemma LinesSnoc(clusters: seq<seq<Site>>, names: seq<string>)
    requires clusters != [] && clusters[|clusters| - 1] != []
    ensures FileLines(clusters, names)
      == FileLines(clusters[..|clusters| - 1], names) + [ClusterLine(clusters[|clusters| - 1], names)]
  {
    DataLinesSnoc(DataLines(clusters[..|clusters| - 1], names),
      ClusterLine(clusters[|clusters| - 1], names), DataLines(clusters, names));
  }

  /** A non-empty last cluster reads back as one more loaded cluster. */
  lemma LoadedSnoc(clusters: seq<seq<Site>>)
    requires clusters != [] && clusters[|clusters| - 1] != []
    ensures LoadedAll(clusters) == LoadedAll(clusters[..|clusters| - 1]) + [Loaded(clusters[|clusters| - 1])]
  {
  }

  lemma DataLinesSnoc(D: seq<string>, t: string, E: seq<string>)
    requires E == D + [t]
    ensures [HEADER] + E == ([HEADER] + D) + [t]
  {
  }

  /** An empty last cluster adds nothing to the file, and nothing to what reads back. */
  lemma LinesSkip(clusters: seq<seq<Site>>, names: seq<string>)
    requires clusters != [] && clusters[|clusters| - 1] == []
    ensures FileLines(clusters, names) == FileLines(clusters[..|clusters| - 1], names)
  {
    assert DataLines(clusters, names) == DataLines(clusters[..|clusters| - 1], names);
  }

  lemma LoadedSkip(clusters: seq<seq<Site>>)
    requires clusters != [] && clusters[|clusters| - 1] == []
    ensures LoadedAll(clusters) == LoadedAll(clusters[..|clusters| - 1])
  {
    assert LoadedAll(clusters) == LoadedAll(clusters[..|clusters| - 1]) + [];
  }

  /** Appending the line of a writable cluster to lines that read appends its cluster. */
  lemma LineAppend(L: seq<string>, c: seq<Site>, names: seq<string>, cs: seq<LoadedCluster>)
    requires c != [] && Writable(c, names) && ParseFile(L) == Ok(cs)
    ensures ParseFile(L + [ClusterLine(c, names)]) == Ok(cs + [Loaded(c)])
  {
    assert SiteWritable(c[0], names);
    LineNotComment(c, names);
    LineRoundTrip(c, names, |L|);
    ParseFileSnoc(L, ClusterLine(c, names), cs, Loaded(c));
  }

  /** A data line that reads adds its cluster to what the lines before it give. */
  lemma ParseFileSnoc(L: seq<string>, t: string, cs: seq<LoadedCluster>, x: LoadedCluster)
    requires ParseFile(L) == Ok(cs) && !StartsWith(t, "#") && ParseLine(t, |L|) == Ok(x)
    ensures ParseFile(L + [t]) == Ok(cs + [x])
  {
    assert (L + [t])[..|L|] == L;
  }

  lemma {:induction false} UnlinesJoin(ls: seq<string>)
    requires ls != []
    ensures Unlines(ls) == Join(ls, '\n') + "\n"
  {
    if |ls| > 1 {
      UnlinesJoin(ls[..|ls| - 1]);
    } else {
      assert ls[..0] == [];
    }
  }

  /** The written text breaks into exactly the lines of the file. */
  lemma TextLines(clusters: seq<seq<Site>>, names: seq<string>)
    requires forall k :: 0 <= k < |clusters| ==> Writable(clusters[k], names)
    ensures Split(FileText(clusters, names), '\n') == FileLines(clusters, names)
  {
    var L := FileLines(clusters, names);
    LinesClean(clusters, names);
    UnlinesJoin(L);
    SplitAllJoin(L, '\n');
    SplitAllAfterSeparator(Join(L, '\n'), "", '\n');
    assert Join(L, '\n') + "\n" == Join(L, '\n') + ['\n'] + "";
    var text := Join(L, '\n') + "\n";
    assert text[|text| - 1] == '\n';
    assert DropTrailingEmpty(L + [""]) == DropTrailingEmpty(L);
    assert (L + [""])[..|L|] == L;
  }

  /** Every line of the file is non-empty and free of line breaks. */
  lemma {:induction false} LinesClean(clusters: seq<seq<Site>>, names: seq<string>)
    requires forall k :: 0 <= k < |clusters| ==> Writable(clusters[k], names)
    ensures forall i :: 0 <= i < |FileLines(clusters, names)| ==>
      '\n' !in FileLines(clusters, names)[i] && FileLines(clusters, names)[i] != ""
  {
    if clusters != [] {
      var init := clusters[..|clusters| - 1];
      var c := clusters[|clusters| - 1];
      LinesClean(init, names);
      if c != [] {
        SplitLine(c, names);
        assert SiteWritable(c[0], names);
        LineNotComment(c, names);
        LinesSnoc(clusters, names);
        CleanSnoc(FileLines(init, names), ClusterLine(c, names));
      } else {
        LinesSkip(clusters, names);
      }
    } else {
      assert FileLines(clusters, names) == [HEADER];
      HeaderIsComment();
    }
  }

  lemma CleanSnoc(L: seq<string>, t: string)
    requires forall i :: 0 <= i < |L| ==> '\n' !in L[i] && L[i] != ""
    requires '\n' !in t && t != ""
    ensures forall i :: 0 <= i < |L + [t]| ==> '\n' !in (L + [t])[i] && (L + [t])[i] != ""
  {
    forall i | 0 <= i < |L + [t]| ensures '\n' !in (L + [t])[i] && (L + [t])[i] != "" {
      if i < |L| { assert (L + [t])[i] == L[i]; }
    }
  }

  /** One site of factor 2 with a motif and signal 7.6 at 1000 on chr1 is written as
      the line `chr1:1000-1000  1  1  C  2  8  1  1`. */
  lemma OneSiteExample()
    ensures ClusterLine([Site(2, "chr1", 1000, 7.6, true)], ["A", "B", "C"])
      == "chr1:1000-1000\t1\t1\tC\t2\t8\t1\t1"
  {
    var c := [Site(2, "chr1", 1000, 7.6, true)];
    OneSiteRegion(c);
    OneSiteTokens(c, ["A", "B", "C"]);
    LineIsJoin(c, ["A", "B", "C"]);
  }

  lemma OneSiteRegion(c: seq<Site>)
    requires c == [Site(2, "chr1", 1000, 7.6, true)]
    ensures RegionText(c) == "chr1:1000-1000"
    ensures IntToString(RegionWidth(c)) == "1" && IntToString(|c|) == "1"
  {
    assert IntToString(1000) == "1000" by {
      assert NatToString(10) == "10" by { assert NatToString(1) == "1"; }
      assert NatToString(100) == "100";
    }
  }

  lemma OneSiteTokens(c: seq<Site>, names: seq<string>)
    requires c == [Site(2, "chr1", 1000, 7.6, true)] && names == ["A", "B", "C"]
    ensures Join(NameTokens(c, names), ',') == "C"
    ensures Join(Map(c, IdToken), ',') == "2"
    ensures Join(Map(c, SignalToken), ',') == "8"
    ensures Join(Map(c, MotifToken), ',') == "1"
    ensures IntToString(MotifCount(c)) == "1"
  {
    assert c[..0] == [];
    assert Round(7.6) == 8 by { assert (7.6 + 0.5).Floor == 8; }
    assert Flags(c) == [true];
  }
}
