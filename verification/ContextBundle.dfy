/**
  Assembling a project's context: files matched in its repository and files of its context directory,
  each key once, until a byte budget is exceeded.
*/
module ContextBundle {
  import opened Wrappers
  import opened UnicodeText

  const USIZE_MAX: nat := 0xFFFF_FFFF_FFFF_FFFF

  /** A path a pattern matched, under its key; `content` is None when it cannot be read. */
  datatype Match = Match(key: string, isFile: bool, content: Option<string>)

  datatype Pattern = Malformed | Matches(paths: seq<Match>)

  datatype ContextFile = ContextFile(key: string, content: Option<string>)

  datatype Config = Config(
    maxBytes: Option<nat>,
    hasRepo: bool,
    repoIncludes: Option<seq<Pattern>>,
    files: Option<seq<ContextFile>>)

  datatype Entry = Entry(key: string, content: string)

  datatype GlobError = GlobError

  // ---- the candidates, in order ----

  datatype Candidate = Bad | File(key: string, content: Option<string>)

  function OfMatches(paths: seq<Match>): seq<Candidate> {
    if paths == [] then []
    else (if paths[0].isFile then [File(paths[0].key, paths[0].content)] else []) + OfMatches(paths[1..])
  }

  function OfPatterns(patterns: seq<Pattern>): seq<Candidate> {
    if patterns == [] then []
    else (match patterns[0] case Malformed => [Bad] case Matches(paths) => OfMatches(paths)) + OfPatterns(patterns[1..])
  }

  function OfFiles(files: seq<ContextFile>): seq<Candidate> {
    if files == [] then [] else [File(files[0].key, files[0].content)] + OfFiles(files[1..])
  }

  function Patterns(c: Config): seq<Pattern> {
    if c.hasRepo && c.repoIncludes.Some? then c.repoIncludes.value else []
  }

  function Files(c: Config): seq<ContextFile> {
    if c.files.Some? then c.files.value else []
  }

  function Candidates(c: Config): seq<Candidate> { OfPatterns(Patterns(c)) + OfFiles(Files(c)) }

  // ---- the loop over them ----

  const MARKER: string := "__truncated__"

  function Decimal(n: nat): string {
    if n < 10 then ["0123456789"[n]] else Decimal(n / 10) + ["0123456789"[n % 10]]
  }

  function Notice(maxBytes: nat): Entry {
    Entry(MARKER, "Context truncated at " + Decimal(maxBytes) + " bytes")
  }

  function Size(e: Entry): nat { Length(Utf8, e.content) }

  datatype Progress = Progress(entries: seq<Entry>, seen: set<string>, total: nat)

  function Collect(cs: seq<Candidate>, p: Progress, max: nat): Result<seq<Entry>, GlobError>
    decreases |cs|
  {
    if cs == [] then Ok(p.entries) else
    match cs[0]
    case Bad => Err(GlobError)
    case File(key, content) =>
      if key in p.seen || content.None? then Collect(cs[1..], p, max) else
      var e := Entry(key, content.value);
      if p.total + Size(e) > max then Ok(p.entries + [Notice(max)])
      else Collect(cs[1..], Progress(p.entries + [e], p.seen + {key}, p.total + Size(e)), max)
  }

  const NOTHING := Progress([], {}, 0)

  /** Put one readable file into the bundle, unless it takes the total over the budget. */
  method Admit(p: Progress, key: string, content: string, max: nat) returns (p': Progress, full: bool)
    requires key !in p.seen
    ensures full <==> p.total + Length(Utf8, content) > max
    ensures p' == if full then p.(entries := p.entries + [Notice(max)], total := p.total + Length(Utf8, content))
                  else Progress(p.entries + [Entry(key, content)], p.seen + {key}, p.total + Length(Utf8, content))
  {
    var total := p.total + Length(Utf8, content);
    if total > max {
      return p.(entries := p.entries + [Notice(max)], total := total), true;
    }
    return Progress(p.entries + [Entry(key, content)], p.seen + {key}, total), false;
  }

  method AddMatches(paths: seq<Match>, p: Progress, max: nat, ghost later: seq<Candidate>)
    returns (p': Progress, full: bool)
    ensures Collect(OfMatches(paths) + later, p, max) == if full then Ok(p'.entries) else Collect(later, p', max)
  {
    p' := p;
    assert paths[0..] == paths;
    for j := 0 to |paths|
      invariant Collect(OfMatches(paths[j..]) + later, p', max) == Collect(OfMatches(paths) + later, p, max)
    {
      var path := paths[j];
      NextMatch(paths, j, later);
      if !path.isFile {
        continue;
      }
      if path.key in p'.seen {
        continue;
      }
      match path.content
      case Some(content) =>
        p', full := Admit(p', path.key, content, max);
        if full {
          return;
        }
      case None =>
    }
    assert OfMatches(paths[|paths|..]) + later == later;
    return p', false;
  }

  method AddFiles(files: seq<ContextFile>, p: Progress, max: nat) returns (p': Progress)
    ensures Collect(OfFiles(files), p, max) == Ok(p'.entries)
  {
    p' := p;
    assert files[0..] == files;
    for i := 0 to |files|
      invariant Collect(OfFiles(files[i..]), p', max) == Collect(OfFiles(files), p, max)
    {
      var file := files[i];
      assert files[i..][1..] == files[i + 1..];
      assert OfFiles(files[i..])[1..] == OfFiles(files[i + 1..]);
      if file.key in p'.seen {
        continue;
      }
      match file.content
      case Some(content) =>
        var full;
        p', full := Admit(p', file.key, content, max);
        if full {
          return;
        }
      case None =>
    }
  }

  method AssembleContextBundle(context: Option<Config>) returns (r: Result<seq<Entry>, GlobError>)
    ensures context.None? ==> r == Ok([])
    ensures context.Some? ==>
              r == Collect(Candidates(context.value), NOTHING, context.value.maxBytes.GetOr(USIZE_MAX))
  {
    if context.None? {
      return Ok([]);
    }
    var c := context.value;
    var p, max := NOTHING, c.maxBytes.GetOr(USIZE_MAX);
    var patterns, files := Patterns(c), Files(c);
    assert patterns[0..] == patterns;
    for i := 0 to |patterns|
      invariant Collect(OfPatterns(patterns[i..]) + OfFiles(files), p, max) == Collect(Candidates(c), NOTHING, max)
    {
      ghost var later := OfPatterns(patterns[i + 1..]) + OfFiles(files);
      NextPattern(patterns, i, OfFiles(files));
      match patterns[i]
      case Malformed => return Err(GlobError);
      case Matches(paths) =>
        var full;
        p, full := AddMatches(paths, p, max, later);
        if full {
          return Ok(p.entries);
        }
    }
    assert OfPatterns(patterns[|patterns|..]) + OfFiles(files) == OfFiles(files);
    p := AddFiles(files, p, max);
    return Ok(p.entries);
  }

  lemma NextPattern(patterns: seq<Pattern>, i: nat, rest: seq<Candidate>)
    requires i < |patterns|
    ensures var cs, later := OfPatterns(patterns[i..]) + rest, OfPatterns(patterns[i + 1..]) + rest;
            match patterns[i]
            case Malformed => cs != [] && cs[0] == Bad
            case Matches(paths) => cs == OfMatches(paths) + later
  {
    assert patterns[i..][1..] == patterns[i + 1..];
    match patterns[i]
    case Malformed => assert OfPatterns(patterns[i..])[0] == Bad;
    case Matches(paths) =>
      assert OfMatches(paths) + OfPatterns(patterns[i + 1..]) + rest
             == OfMatches(paths) + (OfPatterns(patterns[i + 1..]) + rest);
  }

  lemma NextMatch(paths: seq<Match>, j: nat, later: seq<Candidate>)
    requires j < |paths|
    ensures var cs := OfMatches(paths[j..]) + later;
            if paths[j].isFile
            then cs != [] && cs[0] == File(paths[j].key, paths[j].content)
                 && cs[1..] == OfMatches(paths[j + 1..]) + later
            else cs == OfMatches(paths[j + 1..]) + later
  {
    assert paths[j..][1..] == paths[j + 1..];
    if paths[j].isFile {
      assert OfMatches(paths[j..]) + later
             == [File(paths[j].key, paths[j].content)] + (OfMatches(paths[j + 1..]) + later);
    }
  }

  // ---- without a budget ----

  predicate Skipped(c: Candidate, seen: set<string>) { c.Bad? || c.key in seen || c.content.None? }

  /** The readable candidates, each key at its first readable occurrence. */
  function Unlimited(cs: seq<Candidate>, seen: set<string>): seq<Entry> {
    if cs == [] then []
    else if Skipped(cs[0], seen) then Unlimited(cs[1..], seen)
    else [Entry(cs[0].key, cs[0].content.value)] + Unlimited(cs[1..], seen + {cs[0].key})
  }

  ghost predicate DistinctKeys(es: seq<Entry>, seen: set<string>) {
    && (forall i :: 0 <= i < |es| ==> es[i].key !in seen)
    && (forall i, j :: 0 <= i < j < |es| ==> es[i].key != es[j].key)
  }

  lemma DistinctCons(e: Entry, es: seq<Entry>, seen: set<string>)
    requires e.key !in seen && DistinctKeys(es, seen + {e.key})
    ensures DistinctKeys([e] + es, seen)
  {
    assert forall i :: 0 <= i < |es| ==> es[i].key !in seen + {e.key};
  }

  lemma {:induction false} UnlimitedKeysDistinct(cs: seq<Candidate>, seen: set<string>)
    ensures DistinctKeys(Unlimited(cs, seen), seen)
  {
    if cs != [] {
      if Skipped(cs[0], seen) {
        UnlimitedKeysDistinct(cs[1..], seen);
      } else {
        UnlimitedKeysDistinct(cs[1..], seen + {cs[0].key});
        DistinctCons(Entry(cs[0].key, cs[0].content.value), Unlimited(cs[1..], seen + {cs[0].key}), seen);
      }
    }
  }

  ghost predicate HasKey(es: seq<Entry>, key: string) { exists i :: 0 <= i < |es| && es[i].key == key }

  predicate Readable(c: Candidate, key: string) { c.File? && c.key == key && c.content.Some? }

  ghost predicate Offers(cs: seq<Candidate>, key: string) { exists i :: 0 <= i < |cs| && Readable(cs[i], key) }

  lemma OffersCons(cs: seq<Candidate>, key: string)
    requires cs != []
    ensures Offers(cs, key) <==> Readable(cs[0], key) || Offers(cs[1..], key)
  {
    if i :| 0 <= i < |cs[1..]| && Readable(cs[1..][i], key) { assert Readable(cs[i + 1], key); }
    if i :| 0 <= i < |cs| && Readable(cs[i], key) { assert i > 0 ==> Readable(cs[1..][i - 1], key); }
  }

  lemma HasKeyCons(e: Entry, es: seq<Entry>, key: string)
    ensures HasKey([e] + es, key) <==> e.key == key || HasKey(es, key)
  {
    if e.key == key { assert ([e] + es)[0].key == key; }
    if i :| 0 <= i < |es| && es[i].key == key { assert ([e] + es)[i + 1].key == key; }
  }

  /** The unlimited bundle has exactly the keys some readable candidate offers. */
  lemma {:induction false} UnlimitedHasAll(cs: seq<Candidate>, seen: set<string>, key: string)
    ensures HasKey(Unlimited(cs, seen), key) <==> key !in seen && Offers(cs, key)
  {
    if cs != [] {
      OffersCons(cs, key);
      if Skipped(cs[0], seen) {
        UnlimitedHasAll(cs[1..], seen, key);
      } else {
        UnlimitedHasAll(cs[1..], seen + {cs[0].key}, key);
        HasKeyCons(Entry(cs[0].key, cs[0].content.value), Unlimited(cs[1..], seen + {cs[0].key}), key);
      }
    }
  }

  function TotalSize(es: seq<Entry>): nat {
    if es == [] then 0 else Size(es[0]) + TotalSize(es[1..])
  }

  /** How many entries fit before the first that does not. */
  function FitCount(es: seq<Entry>, max: nat): (k: nat)
    ensures k <= |es|
  {
    if es == [] || Size(es[0]) > max then 0 else 1 + FitCount(es[1..], max - Size(es[0]))
  }

  /** The longest prefix within the budget. */
  lemma {:induction false} FitCountIsLongest(es: seq<Entry>, max: nat, k: nat)
    requires k <= |es|
    ensures TotalSize(es[..k]) <= max <==> k <= FitCount(es, max)
  {
    if k > 0 {
      assert es[..k][1..] == es[1..][..k - 1];
      if Size(es[0]) <= max {
        FitCountIsLongest(es[1..], max - Size(es[0]), k - 1);
      }
    }
  }

  /** The part of the unlimited bundle that fits into `room`, and the marker exactly when something was cut. */
  function Budgeted(es: seq<Entry>, room: nat, max: nat): seq<Entry> {
    var k := FitCount(es, room);
    es[..k] + if k < |es| then [Notice(max)] else []
  }

  predicate HasBad(cs: seq<Candidate>) { Bad in cs }

  function BeforeBad(cs: seq<Candidate>): seq<Candidate> {
    if cs == [] || cs[0].Bad? then [] else [cs[0]] + BeforeBad(cs[1..])
  }

  /** What collecting should end with, from the given progress on. */
  function Expected(cs: seq<Candidate>, p: Progress, max: nat): Result<seq<Entry>, GlobError>
    requires p.total <= max
  {
    var es := Unlimited(BeforeBad(cs), p.seen);
    if HasBad(cs) && FitCount(es, max - p.total) == |es| then Err(GlobError)
    else Ok(p.entries + Budgeted(es, max - p.total, max))
  }

  lemma ExpectedAfterAdmit(cs: seq<Candidate>, p: Progress, max: nat)
    requires cs != [] && cs[0].File? && cs[0].content.Some? && cs[0].key !in p.seen
    requires p.total + Length(Utf8, cs[0].content.value) <= max
    ensures var e := Entry(cs[0].key, cs[0].content.value);
            Expected(cs, p, max) ==
            Expected(cs[1..], Progress(p.entries + [e], p.seen + {e.key}, p.total + Size(e)), max)
  {
    var e, room := Entry(cs[0].key, cs[0].content.value), max - p.total;
    var es, later := Unlimited(BeforeBad(cs), p.seen), Unlimited(BeforeBad(cs[1..]), p.seen + {e.key});
    assert BeforeBad(cs)[1..] == BeforeBad(cs[1..]);
    assert es == [e] + later && es[1..] == later;
    BudgetedCons(es, room, max);
    assert p.entries + ([e] + Budgeted(later, room - Size(e), max))
           == p.entries + [e] + Budgeted(later, room - Size(e), max);
  }

  lemma ExpectedAfterSkip(cs: seq<Candidate>, p: Progress, max: nat)
    requires cs != [] && cs[0].File? && (cs[0].key in p.seen || cs[0].content.None?) && p.total <= max
    ensures Expected(cs, p, max) == Expected(cs[1..], p, max)
  {
    assert BeforeBad(cs)[1..] == BeforeBad(cs[1..]);
  }

  lemma ExpectedAtCut(cs: seq<Candidate>, p: Progress, max: nat)
    requires cs != [] && cs[0].File? && cs[0].content.Some? && cs[0].key !in p.seen
    requires p.total <= max < p.total + Length(Utf8, cs[0].content.value)
    ensures Expected(cs, p, max) == Ok(p.entries + [Notice(max)])
  {
    var es := Unlimited(BeforeBad(cs), p.seen);
    assert es[0] == Entry(cs[0].key, cs[0].content.value) && FitCount(es, max - p.total) == 0;
    assert Budgeted(es, max - p.total, max) == [Notice(max)];
  }

  lemma {:induction false} CollectIsBudgeted(cs: seq<Candidate>, p: Progress, max: nat)
    requires p.total <= max
    ensures Collect(cs, p, max) == Expected(cs, p, max)
    decreases |cs|
  {
    if cs == [] {
      assert p.entries + Budgeted(Unlimited([], p.seen), max - p.total, max) == p.entries;
    } else if cs[0].File? {
      if cs[0].key in p.seen || cs[0].content.None? {
        ExpectedAfterSkip(cs, p, max);
        CollectIsBudgeted(cs[1..], p, max);
      } else {
        var e := Entry(cs[0].key, cs[0].content.value);
        if p.total + Size(e) <= max {
          ExpectedAfterAdmit(cs, p, max);
          CollectIsBudgeted(cs[1..], Progress(p.entries + [e], p.seen + {e.key}, p.total + Size(e)), max);
        } else {
          ExpectedAtCut(cs, p, max);
        }
      }
    }
  }

  lemma BudgetedCons(es: seq<Entry>, room: nat, max: nat)
    requires es != [] && Size(es[0]) <= room
    ensures Budgeted(es, room, max) == [es[0]] + Budgeted(es[1..], room - Size(es[0]), max)
    ensures FitCount(es, room) == |es| <==> FitCount(es[1..], room - Size(es[0])) == |es[1..]|
  {
    var k := FitCount(es[1..], room - Size(es[0]));
    assert es[..k + 1] == [es[0]] + es[1..][..k];
  }

  /**
    The bundle is the longest prefix of the unlimited one that fits, then one marker exactly when something
    was cut. A malformed pattern fails the whole bundle, unless the budget ran out before it was reached.
  */
  lemma BundleIsLongestPrefix(c: Config)
    ensures var cs, max := Candidates(c), c.maxBytes.GetOr(USIZE_MAX);
            var es := Unlimited(BeforeBad(cs), {});
            var r, k := Collect(cs, NOTHING, max), FitCount(es, max);
            && (r.Err? <==> HasBad(cs) && TotalSize(es) <= max)
            && (r.Ok? ==>
                && r.value == es[..k] + (if k < |es| then [Notice(max)] else [])
                && TotalSize(es[..k]) <= max
                && (forall j :: k < j <= |es| ==> TotalSize(es[..j]) > max)
                && (k < |es| <==> TotalSize(es) > max)
                && DistinctKeys(r.value[..k], {}))
  {
    var cs, max := Candidates(c), c.maxBytes.GetOr(USIZE_MAX);
    var es := Unlimited(BeforeBad(cs), {});
    CollectIsBudgeted(cs, NOTHING, max);
    assert [] + Budgeted(es, max, max) == Budgeted(es, max, max);
    UnlimitedKeysDistinct(BeforeBad(cs), {});
    forall j | 0 <= j <= |es| ensures TotalSize(es[..j]) <= max <==> j <= FitCount(es, max) {
      FitCountIsLongest(es, max, j);
    }
    assert es[..|es|] == es;
    var k := FitCount(es, max);
    assert Budgeted(es, max, max)[..k] == es[..k];
  }

  // ---- which entries, in which order ----

  /** Candidate `n` is the first readable one of the entry's key, which was not seen before. */
  ghost predicate IsFirstOffer(n: nat, cs: seq<Candidate>, e: Entry, seen: set<string>) {
    && n < |cs| && Readable(cs[n], e.key) && cs[n].content == Some(e.content) && e.key !in seen
    && forall j :: 0 <= j < n ==> !Readable(cs[j], e.key)
  }

  /** `f` leads from the entries, in order, to the candidates they were first offered by. */
  ghost predicate PicksFirst(f: seq<nat>, cs: seq<Candidate>, es: seq<Entry>, seen: set<string>) {
    && |f| == |es|
    && (forall i, j :: 0 <= i < j < |f| ==> f[i] < f[j])
    && (forall i :: 0 <= i < |f| ==> IsFirstOffer(f[i], cs, es[i], seen))
  }

  function Shifted(f: seq<nat>): (r: seq<nat>)
    ensures |r| == |f| && forall i :: 0 <= i < |f| ==> r[i] == f[i] + 1
  {
    seq(|f|, i requires 0 <= i < |f| => f[i] + 1)
  }

  lemma OfferShifts(n: nat, cs: seq<Candidate>, e: Entry, seen: set<string>, seen': set<string>)
    requires cs != [] && IsFirstOffer(n, cs[1..], e, seen') && seen <= seen' && !Readable(cs[0], e.key)
    ensures IsFirstOffer(n + 1, cs, e, seen)
  {
    assert cs[1..][n] == cs[n + 1];
    forall j | 0 <= j < n + 1 ensures !Readable(cs[j], e.key) {
      if j > 0 { assert cs[j] == cs[1..][j - 1]; }
    }
  }

  lemma PicksAfterSkip(g: seq<nat>, cs: seq<Candidate>, es: seq<Entry>, seen: set<string>)
    requires cs != [] && Skipped(cs[0], seen) && PicksFirst(g, cs[1..], es, seen)
    ensures PicksFirst(Shifted(g), cs, es, seen)
  {
    forall i | 0 <= i < |es| ensures IsFirstOffer(g[i] + 1, cs, es[i], seen) {
      assert IsFirstOffer(g[i], cs[1..], es[i], seen);
      OfferShifts(g[i], cs, es[i], seen, seen);
    }
  }

  lemma OfferAfterTake(g: seq<nat>, cs: seq<Candidate>, e: Entry, es: seq<Entry>, seen: set<string>, i: nat)
    requires cs != [] && !Skipped(cs[0], seen) && e == Entry(cs[0].key, cs[0].content.value)
    requires PicksFirst(g, cs[1..], es, seen + {e.key}) && i <= |es|
    ensures IsFirstOffer(if i == 0 then 0 else g[i - 1] + 1, cs, if i == 0 then e else es[i - 1], seen)
  {
    if i > 0 {
      assert IsFirstOffer(g[i - 1], cs[1..], es[i - 1], seen + {e.key});
      OfferShifts(g[i - 1], cs, es[i - 1], seen, seen + {e.key});
    }
  }

  lemma PicksAfterTake(g: seq<nat>, cs: seq<Candidate>, e: Entry, es: seq<Entry>, seen: set<string>)
    requires cs != [] && !Skipped(cs[0], seen) && e == Entry(cs[0].key, cs[0].content.value)
    requires PicksFirst(g, cs[1..], es, seen + {e.key})
    ensures PicksFirst([0] + Shifted(g), cs, [e] + es, seen)
  {
    forall i | 0 <= i < |es| + 1 ensures IsFirstOffer(([0] + Shifted(g))[i], cs, ([e] + es)[i], seen) {
      OfferAfterTake(g, cs, e, es, seen, i);
    }
  }

  /**
    With `UnlimitedHasAll` this settles the unlimited bundle: every offered key once, as first offered, in
    that order.
  */
  lemma {:induction false} UnlimitedIsFirstOffers(cs: seq<Candidate>, seen: set<string>) returns (f: seq<nat>)
    ensures PicksFirst(f, cs, Unlimited(cs, seen), seen)
  {
    f := [];
    if cs != [] {
      if Skipped(cs[0], seen) {
        var g := UnlimitedIsFirstOffers(cs[1..], seen);
        PicksAfterSkip(g, cs, Unlimited(cs[1..], seen), seen);
        f := Shifted(g);
      } else {
        var seen' := seen + {cs[0].key};
        var g := UnlimitedIsFirstOffers(cs[1..], seen');
        PicksAfterTake(g, cs, Entry(cs[0].key, cs[0].content.value), Unlimited(cs[1..], seen'), seen);
        f := [0] + Shifted(g);
      }
    }
  }

  ghost predicate RepoOffers(c: Config, key: string) {
    && c.hasRepo && c.repoIncludes.Some?
    && exists i, j :: 0 <= i < |c.repoIncludes.value| && c.repoIncludes.value[i].Matches?
                      && 0 <= j < |c.repoIncludes.value[i].paths| && MatchOffers(c.repoIncludes.value[i].paths[j], key)
  }

  predicate MatchOffers(m: Match, key: string) { m.isFile && m.key == key && m.content.Some? }

  ghost predicate FilesOffer(c: Config, key: string) {
    && c.files.Some?
    && exists i :: 0 <= i < |c.files.value| && c.files.value[i].key == key && c.files.value[i].content.Some?
  }

  lemma OffersConcat(a: seq<Candidate>, b: seq<Candidate>, key: string)
    ensures Offers(a + b, key) <==> Offers(a, key) || Offers(b, key)
  {
    if i :| 0 <= i < |a| && Readable(a[i], key) { assert Readable((a + b)[i], key); }
    if i :| 0 <= i < |b| && Readable(b[i], key) { assert Readable((a + b)[|a| + i], key); }
    if i :| 0 <= i < |a + b| && Readable((a + b)[i], key) {
      assert i < |a| ==> Readable(a[i], key);
      assert i >= |a| ==> Readable(b[i - |a|], key);
    }
  }

  lemma {:induction false} MatchesOffer(paths: seq<Match>, key: string)
    ensures Offers(OfMatches(paths), key) <==> exists j :: 0 <= j < |paths| && MatchOffers(paths[j], key)
  {
    if paths != [] {
      var first := if paths[0].isFile then [File(paths[0].key, paths[0].content)] else [];
      MatchesOffer(paths[1..], key);
      OffersConcat(first, OfMatches(paths[1..]), key);
      if MatchOffers(paths[0], key) { assert Readable(first[0], key); }
      if j :| 0 <= j < |paths[1..]| && MatchOffers(paths[1..][j], key) { assert MatchOffers(paths[j + 1], key); }
      if j :| 0 <= j < |paths| && MatchOffers(paths[j], key) { assert j > 0 ==> MatchOffers(paths[1..][j - 1], key); }
    }
  }

  ghost predicate PatternOffers(p: Pattern, key: string) {
    p.Matches? && exists j :: 0 <= j < |p.paths| && MatchOffers(p.paths[j], key)
  }

  lemma {:induction false} PatternsOffer(patterns: seq<Pattern>, key: string)
    ensures Offers(OfPatterns(patterns), key) <==> exists i :: 0 <= i < |patterns| && PatternOffers(patterns[i], key)
  {
    if patterns != [] {
      var p := patterns[0];
      var first := match p case Malformed => [Bad] case Matches(paths) => OfMatches(paths);
      PatternsOffer(patterns[1..], key);
      OffersConcat(first, OfPatterns(patterns[1..]), key);
      if p.Matches? { MatchesOffer(p.paths, key); }
      if i :| 0 <= i < |patterns[1..]| && PatternOffers(patterns[1..][i], key) {
        assert PatternOffers(patterns[i + 1], key);
      }
      if i :| 0 <= i < |patterns| && PatternOffers(patterns[i], key) {
        assert i > 0 ==> PatternOffers(patterns[1..][i - 1], key);
      }
    }
  }

  lemma {:induction false} FilesAreCandidates(files: seq<ContextFile>)
    ensures |OfFiles(files)| == |files|
    ensures forall i :: 0 <= i < |files| ==> OfFiles(files)[i] == File(files[i].key, files[i].content)
  {
    if files != [] { FilesAreCandidates(files[1..]); }
  }

  lemma FilesAreOffered(c: Config, key: string)
    ensures Offers(OfFiles(Files(c)), key) <==> FilesOffer(c, key)
  {
    var files, cs := Files(c), OfFiles(Files(c));
    FilesAreCandidates(files);
    if i :| 0 <= i < |files| && files[i].key == key && files[i].content.Some? {
      assert Readable(cs[i], key);
    }
    if i :| 0 <= i < |cs| && Readable(cs[i], key) {
      assert files[i].key == key && files[i].content.Some?;
    }
  }

  /**
    Told from the configuration: without a budget the bundle has a key exactly when a matched file of the repository
    or a context file offers it, and the repository's come first.
  */
  lemma BundleHasWhatIsConfigured(c: Config, key: string) returns (k: nat)
    ensures HasKey(Unlimited(Candidates(c), {}), key) <==> RepoOffers(c, key) || FilesOffer(c, key)
    ensures k <= |Unlimited(Candidates(c), {})|
    ensures RepoOffers(c, key) <==> HasKey(Unlimited(Candidates(c), {})[..k], key)
  {
    var repo, files := OfPatterns(Patterns(c)), OfFiles(Files(c));
    UnlimitedHasAll(Candidates(c), {}, key);
    OffersConcat(repo, files, key);
    PatternsOffer(Patterns(c), key);
    RepoIsOffered(c, key);
    FilesAreOffered(c, key);
    k := |Unlimited(repo, {})|;
    UnlimitedStarts(repo, files, {});
    UnlimitedHasAll(repo, {}, key);
    assert Unlimited(Candidates(c), {})[..k] == Unlimited(repo, {});
  }

  lemma RepoIsOffered(c: Config, key: string)
    ensures RepoOffers(c, key) <==> exists i :: 0 <= i < |Patterns(c)| && PatternOffers(Patterns(c)[i], key)
  {
    if RepoOffers(c, key) {
      var i, j :| 0 <= i < |c.repoIncludes.value| && c.repoIncludes.value[i].Matches?
                  && 0 <= j < |c.repoIncludes.value[i].paths| && MatchOffers(c.repoIncludes.value[i].paths[j], key);
      assert PatternOffers(Patterns(c)[i], key);
    }
  }

  lemma {:induction false} UnlimitedStarts(a: seq<Candidate>, b: seq<Candidate>, seen: set<string>)
    ensures Unlimited(a, seen) <= Unlimited(a + b, seen)
  {
    if a == [] {
      assert a + b == b;
    } else {
      assert (a + b)[1..] == a[1..] + b;
      if Skipped(a[0], seen) {
        UnlimitedStarts(a[1..], b, seen);
      } else {
        UnlimitedStarts(a[1..], b, seen + {a[0].key});
      }
    }
  }

  // ---- the notice ----

  function DecimalValue(s: string): int {
    if s == "" then 0 else 10 * DecimalValue(s[..|s| - 1]) + (s[|s| - 1] as int - '0' as int)
  }

  /** The digits in the notice are those of the budget, without leading zeros. */
  lemma {:induction false} DecimalReadsBack(n: nat)
    ensures DecimalValue(Decimal(n)) == n && Decimal(n) != "" && (n > 0 ==> Decimal(n)[0] != '0')
    ensures forall c :: c in Decimal(n) ==> '0' <= c <= '9'
  {
    var d := n % 10;
    assert "0123456789"[d] as int == '0' as int + d by {
      assert "0123456789" == ['0', '1', '2', '3', '4', '5', '6', '7', '8', '9'];
    }
    if n < 10 {
      assert Decimal(n)[..0] == "";
    } else {
      DecimalReadsBack(n / 10);
      assert Decimal(n)[..|Decimal(n)| - 1] == Decimal(n / 10);
    }
  }

  /** The one entry that is no file says what happened, and at how many bytes. */
  lemma NoticeReads(max: nat) returns (digits: string)
    ensures Notice(max) == Entry("__truncated__", "Context truncated at " + digits + " bytes")
    ensures DecimalValue(digits) == max && forall c :: c in digits ==> '0' <= c <= '9'
  {
    digits := Decimal(max);
    DecimalReadsBack(max);
  }
}
