/** The loader of the operator's own rule files. */
module Loader {
  import opened Lists
  import opened Outcomes
  import opened Rules
  import opened Targets

  /** Static rule ids are a namespace of their own. */
  const STATIC_RULE_BASE := 0x1000_0000

  /** What the text of a line parsed to: nothing but a comment, no address, or an address. */
  datatype Line = Blank | Invalid | Parsed(token: Token)

  /** A path: no file there, one that cannot be read to its end, or a file. */
  datatype Path = Missing | Unreadable(start: seq<Line>) | Readable(lines: seq<Line>)

  /** Where a rule comes from; lines count from 1. */
  datatype Site = Site(file: nat, line: nat)

  type Files = seq<seq<Line>>

  predicate InFiles(files: Files, s: Site) { s.file < |files| && 1 <= s.line <= |files[s.file]| }

  function LineAt(files: Files, s: Site): Line
    requires InFiles(files, s)
  {
    files[s.file][s.line - 1]
  }

  ghost predicate ValidFiles(files: Files) {
    forall s: Site :: InFiles(files, s) && LineAt(files, s).Parsed? ==> LineAt(files, s).token.Valid()
  }

  /** The rule stored for `t` was made for a line, known to `meta`, that parsed to `t`. */
  predicate From(files: Files, meta: map<nat, Site>, t: Target, rule: Rule) {
    && rule.action == Drop && rule.id in meta && InFiles(files, meta[rule.id])
    && LineAt(files, meta[rule.id]).Parsed? && SingleTargetOf(LineAt(files, meta[rule.id]).token) == t
  }

  predicate Stored(rules: RuleSet, t: Target) {
    if t.Exact? then Ip(t.family, t.octets) in rules.exact
    else exists i :: 0 <= i < |rules.blocks| && rules.blocks[i].0 == t
  }

  /** Every rule comes from a line and every address on a line has a rule. */
  ghost predicate Loaded(files: Files, rules: RuleSet, meta: map<nat, Site>, next: nat) {
    && (forall id <- meta :: STATIC_RULE_BASE <= id < next)
    && (forall ip <- rules.exact :: From(files, meta, Exact(ip.family, ip.octets), rules.exact[ip]))
    && (forall i :: 0 <= i < |rules.blocks| ==>
          rules.blocks[i].0.Cidr? && From(files, meta, rules.blocks[i].0, rules.blocks[i].1))
    && (forall s: Site :: InFiles(files, s) && LineAt(files, s).Parsed? ==>
          Stored(rules, SingleTargetOf(LineAt(files, s).token)))
  }

  // ----- one more line, one more file --------------------------------------------------

  /** The files read so far, with one more line in the last one. */
  function AddLine(files: Files, line: Line): Files
    requires files != []
  {
    files[..|files| - 1] + [files[|files| - 1] + [line]]
  }

  function NewSite(files: Files): Site
    requires files != []
  {
    Site(|files| - 1, |files[|files| - 1]| + 1)
  }

  lemma AddLineAt(files: Files, line: Line, s: Site)
    requires files != []
    ensures InFiles(AddLine(files, line), s) <==> InFiles(files, s) || s == NewSite(files)
    ensures InFiles(files, s) ==> s != NewSite(files) && LineAt(AddLine(files, line), s) == LineAt(files, s)
    ensures s == NewSite(files) ==> LineAt(AddLine(files, line), s) == line
  {
  }

  lemma FromLater(files: Files, line: Line, meta: map<nat, Site>, id: nat, t: Target, rule: Rule)
    requires files != [] && From(files, meta, t, rule) && id !in meta
    ensures From(AddLine(files, line), meta, t, rule) && From(AddLine(files, line), meta[id := NewSite(files)], t, rule)
  {
    AddLineAt(files, line, meta[rule.id]);
  }

  /** The rules after one more parsed line. */
  function Add(rules: RuleSet, t: Target, rule: Rule): RuleSet {
    if t.Exact? then rules.(exact := rules.exact[Ip(t.family, t.octets) := rule])
    else rules.(blocks := rules.blocks + [(t, rule)])
  }

  lemma AddStores(rules: RuleSet, t: Target, rule: Rule, u: Target)
    ensures Stored(Add(rules, t, rule), t)
    ensures Stored(rules, u) ==> Stored(Add(rules, t, rule), u)
  {
    var after := Add(rules, t, rule);
    if t.Cidr? {
      assert after.blocks[|rules.blocks|].0 == t;
      assert forall i :: 0 <= i < |rules.blocks| ==> after.blocks[i] == rules.blocks[i];
    }
  }

  lemma AddLoads(files: Files, rules: RuleSet, meta: map<nat, Site>, next: nat, token: Token)
    requires files != [] && Loaded(files, rules, meta, next) && STATIC_RULE_BASE <= next
    ensures Loaded(AddLine(files, Parsed(token)), Add(rules, SingleTargetOf(token), Rule(next, Drop)),
                   meta[next := NewSite(files)], next + 1)
  {
    var line, t, rule := Parsed(token), SingleTargetOf(token), Rule(next, Drop);
    var files', rules', meta' := AddLine(files, line), Add(rules, t, rule), meta[next := NewSite(files)];
    AddLineAt(files, line, NewSite(files));
    assert From(files', meta', t, rule);
    forall ip | ip in rules'.exact ensures From(files', meta', Exact(ip.family, ip.octets), rules'.exact[ip]) {
      if ip in rules.exact {
        FromLater(files, line, meta, next, Exact(ip.family, ip.octets), rules.exact[ip]);
      }
    }
    forall i | 0 <= i < |rules'.blocks|
      ensures rules'.blocks[i].0.Cidr? && From(files', meta', rules'.blocks[i].0, rules'.blocks[i].1)
    {
      if i < |rules.blocks| {
        FromLater(files, line, meta, next, rules.blocks[i].0, rules.blocks[i].1);
      }
    }
    forall s: Site | InFiles(files', s) && LineAt(files', s).Parsed?
      ensures Stored(rules', SingleTargetOf(LineAt(files', s).token))
    {
      AddLineAt(files, line, s);
      AddStores(rules, t, rule, SingleTargetOf(LineAt(files', s).token));
    }
  }

  lemma SkipLoads(files: Files, rules: RuleSet, meta: map<nat, Site>, next: nat, line: Line)
    requires files != [] && Loaded(files, rules, meta, next) && !line.Parsed?
    ensures Loaded(AddLine(files, line), rules, meta, next)
  {
    forall s: Site
      ensures InFiles(AddLine(files, line), s) <==> InFiles(files, s) || s == NewSite(files)
      ensures InFiles(files, s) ==> LineAt(AddLine(files, line), s) == LineAt(files, s)
      ensures s == NewSite(files) ==> LineAt(AddLine(files, line), s) == line
    {
      AddLineAt(files, line, s);
    }
  }

  lemma OpenLoads(files: Files, rules: RuleSet, meta: map<nat, Site>, next: nat)
    requires Loaded(files, rules, meta, next)
    ensures Loaded(files + [[]], rules, meta, next)
  {
    assert forall s: Site :: InFiles(files + [[]], s) <==> InFiles(files, s);
    assert forall s: Site :: InFiles(files, s) ==> LineAt(files + [[]], s) == LineAt(files, s);
  }

  // ----- ids in the order of the lines -------------------------------------------------

  predicate Before(s: Site, t: Site) { s.file < t.file || (s.file == t.file && s.line < t.line) }

  predicate OnLine(files: Files, s: Site, t: Target) {
    InFiles(files, s) && LineAt(files, s).Parsed? && SingleTargetOf(LineAt(files, s).token) == t
  }

  /** The ids number the lines with an address, in their order. */
  ghost predicate IdsAscend(files: Files, meta: map<nat, Site>, next: nat) {
    && (forall id :: id in meta <==> STATIC_RULE_BASE <= id < next)
    && (forall id <- meta :: InFiles(files, meta[id]) && LineAt(files, meta[id]).Parsed?)
    && (forall a, b :: a in meta && b in meta && a < b ==> Before(meta[a], meta[b]))
    && (forall s: Site :: InFiles(files, s) && LineAt(files, s).Parsed? ==> exists id :: id in meta && meta[id] == s)
  }

  /** No rule of a host is older than a line with the host; every block line has its rule, in order. */
  ghost predicate NewestHeld(files: Files, rules: RuleSet, meta: map<nat, Site>) {
    && (forall id, t: Target :: id in meta && OnLine(files, meta[id], t) ==> HeldFrom(rules, id, t))
    && (forall i, j :: 0 <= i < j < |rules.blocks| ==> rules.blocks[i].1.id < rules.blocks[j].1.id)
  }

  predicate HeldFrom(rules: RuleSet, id: nat, t: Target) {
    if t.Exact? then Ip(t.family, t.octets) in rules.exact && id <= rules.exact[Ip(t.family, t.octets)].id
    else (t, Rule(id, Drop)) in rules.blocks
  }

  ghost predicate InLineOrder(files: Files, rules: RuleSet, meta: map<nat, Site>, next: nat) {
    IdsAscend(files, meta, next) && NewestHeld(files, rules, meta)
  }

  lemma NewSiteIsLast(files: Files, s: Site)
    requires files != [] && InFiles(files, s)
    ensures Before(s, NewSite(files))
  {
  }

  lemma AddAscends(files: Files, meta: map<nat, Site>, next: nat, token: Token)
    requires files != [] && IdsAscend(files, meta, next) && STATIC_RULE_BASE <= next
    ensures IdsAscend(AddLine(files, Parsed(token)), meta[next := NewSite(files)], next + 1)
  {
    var line, files', meta' := Parsed(token), AddLine(files, Parsed(token)), meta[next := NewSite(files)];
    AddLineAt(files, line, NewSite(files));
    forall id | id in meta' ensures InFiles(files', meta'[id]) && LineAt(files', meta'[id]).Parsed? {
      if id in meta { AddLineAt(files, line, meta[id]); }
    }
    forall a, b | a in meta' && b in meta' && a < b ensures Before(meta'[a], meta'[b]) {
      if b == next { NewSiteIsLast(files, meta[a]); }
    }
    forall s: Site | InFiles(files', s) && LineAt(files', s).Parsed? ensures exists id :: id in meta' && meta'[id] == s {
      AddLineAt(files, line, s);
      if s == NewSite(files) {
        assert meta'[next] == s;
      } else {
        var id :| id in meta && meta[id] == s;
        assert meta'[id] == s;
      }
    }
  }

  lemma AddHeld(rules: RuleSet, t: Target, rule: Rule, id: nat, u: Target)
    requires rule.action == Drop && id <= rule.id && ((u == t && id == rule.id) || HeldFrom(rules, id, u))
    ensures HeldFrom(Add(rules, t, rule), id, u)
  {
  }

  lemma AddNewest(files: Files, rules: RuleSet, meta: map<nat, Site>, next: nat, token: Token)
    requires files != [] && Loaded(files, rules, meta, next) && InLineOrder(files, rules, meta, next)
    ensures NewestHeld(AddLine(files, Parsed(token)), Add(rules, SingleTargetOf(token), Rule(next, Drop)),
                       meta[next := NewSite(files)])
  {
    var line, t, rule := Parsed(token), SingleTargetOf(token), Rule(next, Drop);
    var files', rules', meta' := AddLine(files, line), Add(rules, t, rule), meta[next := NewSite(files)];
    forall id, u: Target | id in meta' && OnLine(files', meta'[id], u) ensures HeldFrom(rules', id, u) {
      AddLineAt(files, line, meta'[id]);
      if id != next { assert OnLine(files, meta[id], u); }
      AddHeld(rules, t, rule, id, u);
    }
    forall i | 0 <= i < |rules.blocks| ensures rules.blocks[i].1.id < next {
      assert rules.blocks[i].1.id in meta;
    }
  }

  lemma SkipInOrder(files: Files, rules: RuleSet, meta: map<nat, Site>, next: nat, line: Line)
    requires files != [] && InLineOrder(files, rules, meta, next) && !line.Parsed?
    ensures InLineOrder(AddLine(files, line), rules, meta, next)
  {
    forall s: Site
      ensures InFiles(AddLine(files, line), s) <==> InFiles(files, s) || s == NewSite(files)
      ensures InFiles(files, s) ==> LineAt(AddLine(files, line), s) == LineAt(files, s)
      ensures s == NewSite(files) ==> LineAt(AddLine(files, line), s) == line
      ensures InFiles(files, s) ==> s != NewSite(files)
    {
      AddLineAt(files, line, s);
    }
  }

  lemma OpenInOrder(files: Files, rules: RuleSet, meta: map<nat, Site>, next: nat)
    requires InLineOrder(files, rules, meta, next)
    ensures InLineOrder(files + [[]], rules, meta, next)
  {
    assert forall s: Site :: InFiles(files + [[]], s) <==> InFiles(files, s);
    assert forall s: Site :: InFiles(files, s) ==> LineAt(files + [[]], s) == LineAt(files, s);
  }

  // ----- loading -----------------------------------------------------------------------

  function Blanks(lines: seq<Line>): nat {
    if lines == [] then 0 else Blanks(lines[..|lines| - 1]) + if lines[|lines| - 1].Blank? then 1 else 0
  }

  /** What is being filled: the rules, their origins, the next id and the count of skipped lines. */
  datatype Load = Load(rules: RuleSet, meta: map<nat, Site>, next: nat, skipped: nat) {
    /** Every line gave a rule, replaced one, was no rule, or is blank. */
    ghost predicate Holds(files: Files, lines: nat, blanks: nat) {
      && Loaded(files, rules, meta, next) && InLineOrder(files, rules, meta, next) && next == STATIC_RULE_BASE + |meta|
      && |rules.exact| + |rules.blocks| + skipped + blanks == lines
    }
  }

  method LoadLine(load: Load, line: Line, site: Site, ghost files: Files, ghost lines: nat, ghost blanks: nat)
    returns (load': Load)
    requires files != [] && load.Holds(files, lines, blanks) && site == NewSite(files)
    ensures load'.Holds(AddLine(files, line), lines + 1, blanks + if line.Blank? then 1 else 0)
  {
    load' := load;
    match line {
      case Blank =>
        SkipLoads(files, load.rules, load.meta, load.next, line);
        SkipInOrder(files, load.rules, load.meta, load.next, line);
      case Invalid =>
        SkipLoads(files, load.rules, load.meta, load.next, line);
        SkipInOrder(files, load.rules, load.meta, load.next, line);
        load' := load.(skipped := load.skipped + 1);
      case Parsed(token) =>
        AddLoads(files, load.rules, load.meta, load.next, token);
        AddAscends(files, load.meta, load.next, token);
        AddNewest(files, load.rules, load.meta, load.next, token);
        var t, rule := SingleTargetOf(token), Rule(load.next, Drop);
        load' := load.(meta := load.meta[load.next := site], next := load.next + 1);
        if t.Exact? {
          var ip := Ip(t.family, t.octets);
          if ip in load.rules.exact {
            load' := load'.(skipped := load.skipped + 1);
          }
          load' := load'.(rules := load.rules.(exact := load.rules.exact[ip := rule]));
        } else {
          load' := load'.(rules := load.rules.(blocks := load.rules.blocks + [(t, rule)]));
        }
    }
  }

  lemma NextLine(files: Files, lines: seq<Line>, i: nat)
    requires i < |lines|
    ensures AddLine(files + [lines[..i]], lines[i]) == files + [lines[..i + 1]]
    ensures NewSite(files + [lines[..i]]) == Site(|files|, i + 1)
    ensures Blanks(lines[..i + 1]) == Blanks(lines[..i]) + if lines[i].Blank? then 1 else 0
  {
    TakeSnoc(lines, i);
    SnocTake(lines[..i], lines[i]);
    SnocTake(files, lines[..i]);
  }

  /** `load_file_into`: one file into what is loaded already; a repeated host replaces the
      earlier rule. */
  method LoadFile(load: Load, lines: seq<Line>, file: nat, ghost files: Files, ghost before: nat, ghost blanks: nat)
    returns (load': Load)
    requires load.Holds(files, before, blanks) && file == |files|
    ensures load'.Holds(files + [lines], before + |lines|, blanks + Blanks(lines))
  {
    load' := load;
    OpenLoads(files, load.rules, load.meta, load.next);
    OpenInOrder(files, load.rules, load.meta, load.next);
    assert lines[..0] == [];
    for i := 0 to |lines|
      invariant load'.Holds(files + [lines[..i]], before + i, blanks + Blanks(lines[..i]))
    {
      NextLine(files, lines, i);
      load' := LoadLine(load', lines[i], Site(file, i + 1), files + [lines[..i]], before + i, blanks + Blanks(lines[..i]));
    }
    TakeAll(lines);
  }

  /** The lines at each path; a missing file has none. */
  function Contents(paths: seq<Path>): (files: Files)
    ensures |files| == |paths|
  {
    if paths == [] then [] else
    var n := |paths| - 1;
    Contents(paths[..n]) + [if paths[n].Readable? then paths[n].lines else []]
  }

  function Lines(files: Files): nat {
    if files == [] then 0 else Lines(files[..|files| - 1]) + |files[|files| - 1]|
  }

  function AllBlanks(files: Files): nat {
    if files == [] then 0 else AllBlanks(files[..|files| - 1]) + Blanks(files[|files| - 1])
  }

  lemma NextPath(paths: seq<Path>, i: nat)
    requires i < |paths|
    ensures var lines := if paths[i].Readable? then paths[i].lines else [];
            Contents(paths[..i + 1]) == Contents(paths[..i]) + [lines]
            && Lines(Contents(paths[..i + 1])) == Lines(Contents(paths[..i])) + |lines|
            && AllBlanks(Contents(paths[..i + 1])) == AllBlanks(Contents(paths[..i])) + Blanks(lines)
  {
    var lines := if paths[i].Readable? then paths[i].lines else [];
    TakeSnoc(paths, i);
    SnocTake(paths[..i], paths[i]);
    SnocTake(Contents(paths[..i]), lines);
  }

  /** Everything at these paths is loaded, ids count up from the base, and every line gave a rule,
      replaced one, was skipped or is blank. */
  ghost predicate HoldsAll(load: Load, paths: seq<Path>) {
    load.Holds(Contents(paths), Lines(Contents(paths)), AllBlanks(Contents(paths)))
  }

  method Start(ghost paths: seq<Path>) returns (load: Load)
    ensures HoldsAll(load, paths[..0])
  {
    load := Load(RuleSet(map[], []), map[], STATIC_RULE_BASE, 0);
  }

  method LoadPath(load: Load, path: Path, ghost paths: seq<Path>, i: nat) returns (load': Load)
    requires i < |paths| && path == paths[i] && !path.Unreadable? && HoldsAll(load, paths[..i])
    ensures HoldsAll(load', paths[..i + 1])
  {
    NextPath(paths, i);
    var lines := if path.Readable? then path.lines else [];
    ghost var files := Contents(paths[..i]);
    load' := LoadFile(load, lines, i, files, Lines(files), AllBlanks(files));
  }

  /** The number of paths in front of the first unreadable one. */
  function ReadableUpTo(paths: seq<Path>): (n: nat)
    ensures n <= |paths|
    ensures n == |paths| <==> forall i :: 0 <= i < |paths| ==> !paths[i].Unreadable?
  {
    if paths == [] then 0 else
    var n := ReadableUpTo(paths[..|paths| - 1]);
    if n == |paths| - 1 && !paths[n].Unreadable? then |paths| else n
  }

  lemma ReadableNext(paths: seq<Path>, i: nat)
    requires i < |paths| && ReadableUpTo(paths[..i]) == i
    ensures ReadableUpTo(paths[..i + 1]) == if paths[i].Unreadable? then i else i + 1
  {
    TakeSnoc(paths, i);
    SnocTake(paths[..i], paths[i]);
  }

  lemma {:induction false} UnreadableStays(paths: seq<Path>, i: nat)
    requires i <= |paths| && ReadableUpTo(paths[..i]) < i
    ensures ReadableUpTo(paths) < |paths|
  {
    if i == |paths| { TakeAll(paths); } else {
      UnreadableStays(paths[..|paths| - 1], i) by {
        assert paths[..|paths| - 1][..i] == paths[..i];
      }
    }
  }

  /** Load the paths in front of the first unreadable one. */
  method LoadReadable(paths: seq<Path>) returns (load: Load, ok: bool)
    ensures ok ==> HoldsAll(load, paths) && ReadableUpTo(paths) == |paths|
    ensures !ok ==> ReadableUpTo(paths) < |paths|
  {
    load := Start(paths);
    for i := 0 to |paths|
      invariant HoldsAll(load, paths[..i])
      invariant ReadableUpTo(paths[..i]) == i
    {
      ReadableNext(paths, i);
      if paths[i].Unreadable? {
        UnreadableStays(paths, i + 1);
        return load, false;
      }
      load := LoadPath(load, paths[i], paths, i);
    }
    TakeAll(paths);
    ok := true;
  }

  /** `load_from_paths_with_meta`: all files, one id counter; missing files are passed over, an
      unreadable one fails the whole load. */
  method LoadPaths(paths: seq<Path>) returns (r: Result<Load>)
    ensures r.Ok? <==> forall i :: 0 <= i < |paths| ==> !paths[i].Unreadable?
    ensures r.Ok? ==> HoldsAll(r.value, paths)
  {
    var load, ok := LoadReadable(paths);
    r := if ok then Ok(load) else Err;
  }

  // ----- what is loaded ----------------------------------------------------------------

  lemma TrieStores(rules: RuleSet, t: Target)
    requires t.Cidr? && forall i :: 0 <= i < |rules.blocks| ==> rules.blocks[i].0.Cidr?
    ensures t in TablesOf(rules).trie <==> Stored(rules, t)
  {
    if t in TablesOf(rules).trie {
      var i := PutAllSource(rules.blocks, t);
      assert rules.blocks[i].0 == t;
    }
    if Stored(rules, t) {
      var i :| 0 <= i < |rules.blocks| && rules.blocks[i].0 == t;
      PutAllHas(rules.blocks, i);
    }
  }

  /** The line behind a stored block. */
  lemma LineOfBlock(files: Files, rules: RuleSet, meta: map<nat, Site>, next: nat, t: Target) returns (s: Site)
    requires Loaded(files, rules, meta, next) && t in TablesOf(rules).trie
    ensures t.Cidr? && From(files, meta, t, TablesOf(rules).trie[t])
    ensures InFiles(files, s) && LineAt(files, s).Parsed? && SingleTargetOf(LineAt(files, s).token) == t
  {
    var j := PutAllSource(rules.blocks, t);
    assert rules.blocks[j] == (t, TablesOf(rules).trie[t]);
    s := meta[rules.blocks[j].1.id];
  }

  /** The line behind a stored host. */
  lemma LineOfHost(files: Files, rules: RuleSet, meta: map<nat, Site>, next: nat, ip: Ip) returns (s: Site)
    requires Loaded(files, rules, meta, next) && ip in rules.exact
    ensures InFiles(files, s) && LineAt(files, s).Parsed?
    ensures SingleTargetOf(LineAt(files, s).token) == Exact(ip.family, ip.octets)
    ensures rules.exact[ip].action == Drop && rules.exact[ip].id in meta
  {
    s := meta[rules.exact[ip].id];
  }

  /** Of several lines with one target the last one wins: its rule is the one a lookup finds. */
  lemma LastLineWins(files: Files, rules: RuleSet, meta: map<nat, Site>, next: nat, s: Site, t: Target)
    requires Loaded(files, rules, meta, next) && InLineOrder(files, rules, meta, next)
    requires OnLine(files, s, t) && forall later: Site :: OnLine(files, later, t) ==> !Before(s, later)
    ensures var tables := TablesOf(rules);
            if t.Exact?
            then Ip(t.family, t.octets) in tables.exact && tables.exact[Ip(t.family, t.octets)].id in meta
                 && meta[tables.exact[Ip(t.family, t.octets)].id] == s
            else t in tables.trie && tables.trie[t].id in meta && meta[tables.trie[t].id] == s
  {
    var id := IdOfLine(files, rules, meta, next, s, t);
    if t.Exact? {
      assert From(files, meta, t, rules.exact[Ip(t.family, t.octets)]);
      NoneLater(files, meta, next, id, rules.exact[Ip(t.family, t.octets)].id, t);
    } else {
      NewestPut(rules.blocks, id, t);
      var site := LineOfBlock(files, rules, meta, next, t);
      NoneLater(files, meta, next, id, TablesOf(rules).trie[t].id, t);
    }
  }

  lemma IdOfLine(files: Files, rules: RuleSet, meta: map<nat, Site>, next: nat, s: Site, t: Target) returns (id: nat)
    requires InLineOrder(files, rules, meta, next) && OnLine(files, s, t)
    ensures id in meta && meta[id] == s && HeldFrom(rules, id, t)
  {
    id :| id in meta && meta[id] == s;
  }

  lemma NoneLater(files: Files, meta: map<nat, Site>, next: nat, id: nat, other: nat, t: Target)
    requires IdsAscend(files, meta, next) && id in meta && other in meta && id <= other && OnLine(files, meta[other], t)
    requires forall later: Site :: OnLine(files, later, t) ==> !Before(meta[id], later)
    ensures id == other
  {
  }

  lemma NewestPut(rows: seq<(Target, Rule)>, id: nat, t: Target)
    requires (t, Rule(id, Drop)) in rows && forall i, j :: 0 <= i < j < |rows| ==> rows[i].1.id < rows[j].1.id
    ensures t in PutAll(map[], rows) && id <= PutAll(map[], rows)[t].id
  {
    var i :| 0 <= i < |rows| && rows[i] == (t, Rule(id, Drop));
    var j := LastPut(rows, i);
    PutAllHolds(map[], rows, j);
  }

  lemma {:induction false} LastPut(rows: seq<(Target, Rule)>, i: nat) returns (j: nat)
    requires i < |rows|
    ensures i <= j < |rows| && rows[j].0 == rows[i].0 && forall k :: j < k < |rows| ==> rows[k].0 != rows[i].0
  {
    if |rows| == i + 1 || rows[|rows| - 1].0 == rows[i].0 {
      j := |rows| - 1;
    } else {
      j := LastPut(rows[..|rows| - 1], i);
    }
  }

  lemma LoadedIsRouted(files: Files, rules: RuleSet, meta: map<nat, Site>, next: nat)
    requires Loaded(files, rules, meta, next) && ValidFiles(files)
    ensures Routed(TablesOf(rules)) && AllDrop(TablesOf(rules))
  {
    var t := TablesOf(rules);
    forall ip | ip in t.exact ensures ip.Valid() && t.exact[ip].action == Drop {
      var s := LineOfHost(files, rules, meta, next, ip);
      SingleTargetDenotes(LineAt(files, s).token);
    }
    forall k | k in t.trie
      ensures k.Cidr? && k.Canonical() && k.prefix < k.family.Width() && t.trie[k].action == Drop
    {
      var s := LineOfBlock(files, rules, meta, next, k);
      SingleTargetDenotes(LineAt(files, s).token);
    }
  }

  lemma TokenDenotes(token: Token, ip: Ip)
    requires token.Valid() && ip.Valid()
    ensures SingleTargetOf(token).Denotes(ip) <==> token.Denotes(ip)
  {
    SingleTargetDenotes(token);
    ContainsIpDenotes(SingleTargetOf(token), ip);
  }

  ghost predicate Listed(files: Files, ip: Ip) {
    exists s: Site :: InFiles(files, s) && LineAt(files, s).Parsed? && LineAt(files, s).token.Denotes(ip)
  }

  /** Loaded rules cover exactly what the lines denote. */
  lemma LoadedCovers(files: Files, rules: RuleSet, meta: map<nat, Site>, next: nat, ip: Ip)
    requires Loaded(files, rules, meta, next) && ValidFiles(files) && ip.Valid()
    ensures Covered(TablesOf(rules), ip) <==> Listed(files, ip)
  {
    var t := TablesOf(rules);
    if ip in t.exact {
      var s := LineOfHost(files, rules, meta, next, ip);
      TokenDenotes(LineAt(files, s).token, ip);
    } else if Covered(t, ip) {
      var k :| k in t.trie && k.Denotes(ip);
      var s := LineOfBlock(files, rules, meta, next, k);
      TokenDenotes(LineAt(files, s).token, ip);
    }
    if Listed(files, ip) {
      var s: Site :| InFiles(files, s) && LineAt(files, s).Parsed? && LineAt(files, s).token.Denotes(ip);
      var k := SingleTargetOf(LineAt(files, s).token);
      TokenDenotes(LineAt(files, s).token, ip);
      SingleTargetDenotes(LineAt(files, s).token);
      if k.Exact? { ExactIsCanonical(k); } else { TrieStores(rules, k); }
    }
  }
}
