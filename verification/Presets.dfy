/** Checking and expanding the metric list of a configuration
    (internal/config/config.go). */
module Presets {
  import opened Basics

  datatype Metric = Metric(preset: string, typ: string, typePrefix: string, interval: Time, lookback: Time, filter: string, rename: string)
  datatype Bundle = Bundle(types: seq<string>, typePrefixes: seq<string>)
  type Bundles = map<string, Bundle>

  const MIN_INTERVAL: Time := 60 * SECOND

  // -------------------------------------------------------------- validation

  datatype Problem =
    | NotExactlyOne(entry: nat)
    | IntervalTooShort(entry: nat)
    | RenameWithoutType(entry: nat)
    | UnknownPreset(entry: nat)

  function NonEmpty(fields: seq<string>): nat
  {
    if fields == [] then 0 else
    NonEmpty(fields[..|fields| - 1]) + if fields[|fields| - 1] != "" then 1 else 0
  }

  /** How many of preset, type and type prefix an entry names. */
  function CountSet(m: Metric): nat
  {
    NonEmpty([m.preset, m.typ, m.typePrefix])
  }

  lemma CountSetOf(m: Metric)
    ensures CountSet(m) == (if m.preset != "" then 1 else 0) + (if m.typ != "" then 1 else 0) + (if m.typePrefix != "" then 1 else 0)
  {
    var f := [m.preset, m.typ, m.typePrefix];
    assert f[..2] == [m.preset, m.typ] && [m.preset, m.typ][..1] == [m.preset] && [m.preset][..0] == [];
    assert NonEmpty([m.preset]) == if m.preset != "" then 1 else 0;
    assert NonEmpty([m.preset, m.typ]) == NonEmpty([m.preset]) + if m.typ != "" then 1 else 0;
  }

  /** What is wrong with one entry; an entry that names none or several things
      is not looked at further. */
  function EntryProblems(bundles: Bundles, m: Metric, i: nat): seq<Problem>
  {
    if CountSet(m) != 1 then [NotExactlyOne(i)] else
    (if m.interval != 0 && m.interval < MIN_INTERVAL then [IntervalTooShort(i)] else [])
    + (if m.rename != "" && m.typ == "" then [RenameWithoutType(i)] else [])
    + (if m.preset != "" && m.preset !in bundles then [UnknownPreset(i)] else [])
  }

  function Problems(bundles: Bundles, metrics: seq<Metric>): seq<Problem>
  {
    if metrics == [] then [] else
    var n := |metrics| - 1;
    Problems(bundles, metrics[..n]) + EntryProblems(bundles, metrics[n], n)
  }

  method ValidateEntry(bundles: Bundles, m: Metric, i: nat) returns (errs: seq<Problem>)
    ensures errs == EntryProblems(bundles, m, i)
  {
    var fields := [m.preset, m.typ, m.typePrefix];
    var given := 0;
    for j := 0 to 3
      invariant given == NonEmpty(fields[..j])
    {
      assert fields[..j + 1][..j] == fields[..j];
      if fields[j] != "" {
        given := given + 1;
      }
    }
    assert fields[..3] == fields;
    if given != 1 {
      return [NotExactlyOne(i)];
    }
    errs := [];
    if m.interval != 0 && m.interval < MIN_INTERVAL {
      errs := errs + [IntervalTooShort(i)];
    }
    if m.rename != "" && m.typ == "" {
      errs := errs + [RenameWithoutType(i)];
    }
    if m.preset != "" && m.preset !in bundles {
      errs := errs + [UnknownPreset(i)];
    }
  }

  method ValidateEntries(bundles: Bundles, metrics: seq<Metric>) returns (errs: seq<Problem>)
    ensures errs == Problems(bundles, metrics)
  {
    errs := [];
    for i := 0 to |metrics|
      invariant errs == Problems(bundles, metrics[..i])
    {
      assert metrics[..i + 1][..i] == metrics[..i];
      var found := ValidateEntry(bundles, metrics[i], i);
      errs := errs + found;
    }
    assert metrics[..|metrics|] == metrics;
  }

  predicate ValidEntry(bundles: Bundles, m: Metric)
  {
    && CountSet(m) == 1
    && (m.interval == 0 || m.interval >= MIN_INTERVAL)
    && (m.rename != "" ==> m.typ != "")
    && (m.preset != "" ==> m.preset in bundles)
  }

  /** Validation passes exactly the lists of valid entries. */
  lemma {:induction false} NoProblemsIffValid(bundles: Bundles, metrics: seq<Metric>)
    ensures Problems(bundles, metrics) == [] <==> forall i :: 0 <= i < |metrics| ==> ValidEntry(bundles, metrics[i])
  {
    if metrics != [] {
      var n := |metrics| - 1;
      NoProblemsIffValid(bundles, metrics[..n]);
      assert EntryProblems(bundles, metrics[n], n) == [] <==> ValidEntry(bundles, metrics[n]);
    }
  }

  // --------------------------------------------------------------- expansion

  function OfType(m: Metric, t: string): Metric
  {
    Metric("", t, "", m.interval, m.lookback, m.filter, "")
  }

  function OfPrefix(m: Metric, p: string): Metric
  {
    Metric("", "", p, m.interval, m.lookback, m.filter, "")
  }

  function Members(b: Bundle, m: Metric): (r: seq<Metric>)
    ensures |r| == |b.types| + |b.typePrefixes|
  {
    seq(|b.types|, i requires 0 <= i < |b.types| => OfType(m, b.types[i]))
    + seq(|b.typePrefixes|, i requires 0 <= i < |b.typePrefixes| => OfPrefix(m, b.typePrefixes[i]))
  }

  /** The list with presets replaced by their members; None if one is unknown. */
  function Resolved(bundles: Bundles, metrics: seq<Metric>): Option<seq<Metric>>
  {
    if metrics == [] then Some([]) else
    var m := metrics[|metrics| - 1];
    match Resolved(bundles, metrics[..|metrics| - 1])
    case None => None
    case Some(front) =>
      if m.preset == "" then Some(front + [m])
      else if m.preset in bundles then Some(front + Members(bundles[m.preset], m))
      else None
  }

  function Key(m: Metric): string
  {
    if m.typePrefix != "" then "p:" + m.typePrefix else "t:" + m.typ
  }

  /** The keys in order of first occurrence. */
  function FirstKeys(out: seq<Metric>): seq<string>
  {
    if out == [] then [] else
    var front, k := FirstKeys(out[..|out| - 1]), Key(out[|out| - 1]);
    if k in front then front else front + [k]
  }

  /** The last entry with a key. */
  function LastWith(out: seq<Metric>, k: string): Option<Metric>
  {
    if out == [] then None
    else if Key(out[|out| - 1]) == k then Some(out[|out| - 1])
    else LastWith(out[..|out| - 1], k)
  }

  /** One entry per key, the last with that key, in order of first occurrence. */
  ghost predicate Deduplicates(out: seq<Metric>, deduped: seq<Metric>)
  {
    && |deduped| == |FirstKeys(out)|
    && forall i :: 0 <= i < |deduped| ==> LastWith(out, FirstKeys(out)[i]) == Some(deduped[i])
  }

  /** The result of expansion, or the failure that leaves the list as it was. */
  ghost predicate Expands(bundles: Bundles, metrics: seq<Metric>, result: Option<seq<Metric>>)
  {
    match Resolved(bundles, metrics)
    case None => result.None?
    case Some(out) => result.Some? && Deduplicates(out, result.value)
  }

  method Resolve(bundles: Bundles, metrics: seq<Metric>) returns (out: Option<seq<Metric>>)
    ensures out == Resolved(bundles, metrics)
  {
    var list: seq<Metric> := [];
    for i := 0 to |metrics|
      invariant Resolved(bundles, metrics[..i]) == Some(list)
    {
      var m := metrics[i];
      assert metrics[..i + 1][..i] == metrics[..i];
      if m.preset == "" {
        list := list + [m];
        continue;
      }
      if m.preset !in bundles {
        UnknownFails(bundles, metrics, i + 1);
        return None;
      }
      var b := bundles[m.preset];
      var members: seq<Metric> := [];
      for j := 0 to |b.types|
        invariant members == Members(b, m)[..j]
      {
        members := members + [OfType(m, b.types[j])];
      }
      for j := 0 to |b.typePrefixes|
        invariant members == Members(b, m)[..|b.types| + j]
      {
        members := members + [OfPrefix(m, b.typePrefixes[j])];
      }
      assert members == Members(b, m);
      list := list + members;
    }
    assert metrics[..|metrics|] == metrics;
    out := Some(list);
  }

  lemma {:induction false} UnknownFails(bundles: Bundles, metrics: seq<Metric>, i: nat)
    requires i <= |metrics| && Resolved(bundles, metrics[..i]).None?
    ensures Resolved(bundles, metrics).None?
    decreases |metrics|
  {
    if i < |metrics| {
      var front := metrics[..|metrics| - 1];
      assert front[..i] == metrics[..i];
      UnknownFails(bundles, front, i);
    } else {
      assert metrics[..i] == metrics;
    }
  }

  lemma {:induction false} FirstKeysDistinct(out: seq<Metric>)
    ensures forall i, j :: 0 <= i < j < |FirstKeys(out)| ==> FirstKeys(out)[i] != FirstKeys(out)[j]
  {
    if out != [] {
      FirstKeysDistinct(out[..|out| - 1]);
    }
  }

  lemma {:induction false} KeysOccur(out: seq<Metric>, k: string)
    ensures k in FirstKeys(out) <==> LastWith(out, k).Some?
    ensures LastWith(out, k).Some? ==> LastWith(out, k).value in out && Key(LastWith(out, k).value) == k
  {
    if out != [] {
      KeysOccur(out[..|out| - 1], k);
    }
  }

  /** The loop of the source: an index map from keys to slots, later entries
      overwriting their slot. */
  method Deduplicate(out: seq<Metric>) returns (deduped: seq<Metric>)
    ensures Deduplicates(out, deduped)
  {
    var seen: map<string, nat> := map[];
    deduped := [];
    for i := 0 to |out|
      invariant Deduplicates(out[..i], deduped)
      invariant forall k :: k in seen <==> k in FirstKeys(out[..i])
      invariant forall k :: k in seen ==> seen[k] < |deduped| && FirstKeys(out[..i])[seen[k]] == k
    {
      var m := out[i];
      var key := Key(m);
      assert out[..i + 1][..i] == out[..i];
      FirstKeysDistinct(out[..i]);
      if key in seen {
        deduped := deduped[seen[key] := m];
        continue;
      }
      seen := seen[key := |deduped|];
      deduped := deduped + [m];
    }
    assert out[..|out|] == out;
  }

  method ExpandPresets(bundles: Bundles, metrics: seq<Metric>) returns (result: Option<seq<Metric>>)
    ensures Expands(bundles, metrics, result)
  {
    var out := Resolve(bundles, metrics);
    if out.None? {
      return None;
    }
    var deduped := Deduplicate(out.value);
    result := Some(deduped);
  }

  // -------------------------------------------------------------- properties

  lemma {:induction false} ResolvedHasNoPresets(bundles: Bundles, metrics: seq<Metric>)
    requires Resolved(bundles, metrics).Some?
    ensures forall m :: m in Resolved(bundles, metrics).value ==> m.preset == ""
  {
    if metrics != [] {
      ResolvedHasNoPresets(bundles, metrics[..|metrics| - 1]);
    }
  }

  /** Expansion yields unique keys, no presets, every key of the resolved list,
      and for each the last entry. */
  lemma ExpansionIsClean(bundles: Bundles, metrics: seq<Metric>, r: seq<Metric>)
    requires Expands(bundles, metrics, Some(r))
    ensures forall i, j :: 0 <= i < j < |r| ==> Key(r[i]) != Key(r[j])
    ensures forall i :: 0 <= i < |r| ==> r[i].preset == "" && r[i] in Resolved(bundles, metrics).value
    ensures forall m :: m in Resolved(bundles, metrics).value ==> exists i :: 0 <= i < |r| && Key(r[i]) == Key(m)
  {
    var out := Resolved(bundles, metrics).value;
    ResolvedHasNoPresets(bundles, metrics);
    FirstKeysDistinct(out);
    forall i | 0 <= i < |r|
      ensures Key(r[i]) == FirstKeys(out)[i] && r[i] in out
    {
      KeysOccur(out, FirstKeys(out)[i]);
    }
    forall m | m in out
      ensures exists i :: 0 <= i < |r| && Key(r[i]) == Key(m)
    {
      MemberHasKey(out, m);
      KeysOccur(out, Key(m));
      var i :| 0 <= i < |FirstKeys(out)| && FirstKeys(out)[i] == Key(m);
      assert Key(r[i]) == Key(m);
    }
  }

  lemma {:induction false} MemberHasKey(out: seq<Metric>, m: Metric)
    requires m in out
    ensures LastWith(out, Key(m)).Some?
  {
    if Key(out[|out| - 1]) != Key(m) {
      MemberHasKey(out[..|out| - 1], m);
    }
  }

  lemma {:induction false} NoPresetsResolveToThemselves(bundles: Bundles, metrics: seq<Metric>)
    requires forall i :: 0 <= i < |metrics| ==> metrics[i].preset == ""
    ensures Resolved(bundles, metrics) == Some(metrics)
  {
    if metrics != [] {
      NoPresetsResolveToThemselves(bundles, metrics[..|metrics| - 1]);
      assert metrics == metrics[..|metrics| - 1] + [metrics[|metrics| - 1]];
    }
  }

  lemma {:induction false} UniqueKeysStay(r: seq<Metric>)
    requires forall i, j :: 0 <= i < j < |r| ==> Key(r[i]) != Key(r[j])
    ensures |FirstKeys(r)| == |r|
    ensures forall i :: 0 <= i < |r| ==> FirstKeys(r)[i] == Key(r[i]) && LastWith(r, Key(r[i])) == Some(r[i])
  {
    if r != [] {
      var n := |r| - 1;
      UniqueKeysStay(r[..n]);
    }
  }

  /** Expanding an expanded list changes nothing. */
  lemma ExpansionIsIdempotent(bundles: Bundles, metrics: seq<Metric>, r: seq<Metric>, again: Option<seq<Metric>>)
    requires Expands(bundles, metrics, Some(r)) && Expands(bundles, r, again)
    ensures again == Some(r)
  {
    ExpansionIsClean(bundles, metrics, r);
    NoPresetsResolveToThemselves(bundles, r);
    UniqueKeysStay(r);
    forall i | 0 <= i < |r|
      ensures again.value[i] == r[i]
    {
      assert FirstKeys(r)[i] == Key(r[i]);
    }
    assert again.value == r;
  }

  ghost predicate CleanBundles(bundles: Bundles)
  {
    forall p :: p in bundles ==> "" !in bundles[p].types && "" !in bundles[p].typePrefixes
  }

  lemma {:induction false} ValidResolves(bundles: Bundles, metrics: seq<Metric>)
    requires CleanBundles(bundles) && forall i :: 0 <= i < |metrics| ==> ValidEntry(bundles, metrics[i])
    ensures Resolved(bundles, metrics).Some?
    ensures forall m :: m in Resolved(bundles, metrics).value ==> ValidEntry(bundles, m)
  {
    if metrics != [] {
      var n := |metrics| - 1;
      ValidResolves(bundles, metrics[..n]);
      var m := metrics[n];
      assert ValidEntry(bundles, m);
      forall x | x in Resolved(bundles, metrics).value
        ensures ValidEntry(bundles, x)
      {
        CountSetOf(x);
      }
    }
  }

  /** A list that passes validation expands, and what it expands to passes
      validation again. */
  lemma ValidListsExpand(bundles: Bundles, metrics: seq<Metric>, result: Option<seq<Metric>>)
    requires CleanBundles(bundles) && Problems(bundles, metrics) == [] && Expands(bundles, metrics, result)
    ensures result.Some? && Problems(bundles, result.value) == []
  {
    NoProblemsIffValid(bundles, metrics);
    ValidResolves(bundles, metrics);
    ExpansionIsClean(bundles, metrics, result.value);
    NoProblemsIffValid(bundles, result.value);
  }

  /** An entry later in the list replaces whatever an earlier one, in particular
      a preset, gave for the same metric. */
  lemma LaterEntriesWin(bundles: Bundles, metrics: seq<Metric>, m: Metric, r: seq<Metric>)
    requires m.preset == "" && Expands(bundles, metrics + [m], Some(r))
    ensures m in r
  {
    assert (metrics + [m])[..|metrics|] == metrics;
    var out := Resolved(bundles, metrics + [m]).value;
    assert out[|out| - 1] == m;
    KeysOccur(out, Key(m));
    var i :| 0 <= i < |FirstKeys(out)| && FirstKeys(out)[i] == Key(m);
    assert r[i] == m;
  }

  // --------------------------------------------- what it comes to, written out

  /** An entry names exactly one of a preset, a type and a type prefix. */
  ghost predicate NamesOne(m: Metric)
  {
    || (m.preset != "" && m.typ == "" && m.typePrefix == "")
    || (m.preset == "" && m.typ != "" && m.typePrefix == "")
    || (m.preset == "" && m.typ == "" && m.typePrefix != "")
  }

  lemma CountsOne(m: Metric)
    ensures CountSet(m) == 1 <==> NamesOne(m)
  {
    CountSetOf(m);
  }

  /** Which problems validation reports of which entries: one that names none or
      several things has only that problem; an interval, if given, is at least a
      minute; a rename goes with a type; a preset is known. */
  lemma {:induction false} ProblemsFound(bundles: Bundles, metrics: seq<Metric>, p: Problem)
    ensures p in Problems(bundles, metrics) <==> p.entry < |metrics| && HasProblem(bundles, metrics[p.entry], p)
  {
    if metrics != [] {
      var n := |metrics| - 1;
      ProblemsFound(bundles, metrics[..n], p);
      ProblemsOfEntry(bundles, metrics[n], n, p);
      hide HasProblem, EntryProblems;
      assert forall i :: 0 <= i < n ==> metrics[..n][i] == metrics[i];
      InEither(Problems(bundles, metrics[..n]), EntryProblems(bundles, metrics[n], n), p);
    }
  }

  lemma InEither(a: seq<Problem>, b: seq<Problem>, p: Problem)
    ensures p in a + b <==> p in a || p in b
  {}

  ghost predicate HasProblem(bundles: Bundles, m: Metric, p: Problem)
  {
    match p
    case NotExactlyOne(_) => !NamesOne(m)
    case IntervalTooShort(_) => NamesOne(m) && m.interval != 0 && m.interval < 60 * 1_000_000_000
    case RenameWithoutType(_) => NamesOne(m) && m.rename != "" && m.typ == ""
    case UnknownPreset(_) => NamesOne(m) && m.preset != "" && m.preset !in bundles
  }

  lemma ProblemsOfEntry(bundles: Bundles, m: Metric, i: nat, p: Problem)
    ensures p in EntryProblems(bundles, m, i) <==> p.entry == i && HasProblem(bundles, m, p)
  {
    CountsOne(m);
    hide CountSet, NamesOne;
  }

  /** Where problems come in the list: by entry, and for one entry in the order
      in which it is looked at. */
  predicate ReportedBefore(p: Problem, q: Problem)
  {
    p.entry < q.entry || (p.entry == q.entry && Rank(p) < Rank(q))
  }

  predicate InReportOrder(ps: seq<Problem>)
  {
    forall i, j :: 0 <= i < j < |ps| ==> ReportedBefore(ps[i], ps[j])
  }

  function Rank(p: Problem): nat
  {
    match p
    case NotExactlyOne(_) => 0
    case IntervalTooShort(_) => 1
    case RenameWithoutType(_) => 2
    case UnknownPreset(_) => 3
  }

  /** Problems are reported in that order, so none of them twice. */
  lemma {:induction false} ProblemsInOrder(bundles: Bundles, metrics: seq<Metric>)
    ensures InReportOrder(Problems(bundles, metrics))
  {
    if metrics != [] {
      var n := |metrics| - 1;
      ProblemsInOrder(bundles, metrics[..n]);
      EntryProblemsInOrder(bundles, metrics[n], n);
      forall p | p in Problems(bundles, metrics[..n])
        ensures p.entry < n
      {
        ProblemsFound(bundles, metrics[..n], p);
      }
      OneListAfterAnother(Problems(bundles, metrics[..n]), EntryProblems(bundles, metrics[n], n), n);
      hide EntryProblems, InReportOrder;
    }
  }

  lemma OneListAfterAnother(a: seq<Problem>, b: seq<Problem>, n: nat)
    requires InReportOrder(a) && InReportOrder(b)
    requires (forall p :: p in a ==> p.entry < n) && forall p :: p in b ==> p.entry == n
    ensures InReportOrder(a + b)
  {
    forall i, j | 0 <= i < j < |a + b|
      ensures ReportedBefore((a + b)[i], (a + b)[j])
    {
      if i < |a| <= j {
        assert a[i] in a && b[j - |a|] in b;
      }
    }
  }

  lemma EntryProblemsInOrder(bundles: Bundles, m: Metric, n: nat)
    ensures InReportOrder(EntryProblems(bundles, m, n)) && forall p :: p in EntryProblems(bundles, m, n) ==> p.entry == n
  {
    hide CountSet;
  }

  /** Lists resolve piece by piece. */
  lemma {:induction false} ResolvesInParts(bundles: Bundles, a: seq<Metric>, b: seq<Metric>)
    ensures Resolved(bundles, a + b) ==
      if Resolved(bundles, a).None? || Resolved(bundles, b).None? then None
      else Some(Resolved(bundles, a).value + Resolved(bundles, b).value)
  {
    if b == [] {
      assert a + b == a;
      if Resolved(bundles, a).Some? {
        assert Resolved(bundles, a).value + [] == Resolved(bundles, a).value;
      }
    } else {
      var n := |b| - 1;
      ResolvesInParts(bundles, a, b[..n]);
      assert (a + b)[..|a + b| - 1] == a + b[..n];
      assert (a + b)[|a + b| - 1] == b[n];
      if Resolved(bundles, a).Some? && Resolved(bundles, b[..n]).Some? && (b[n].preset == "" || b[n].preset in bundles) {
        var more := if b[n].preset == "" then [b[n]] else Members(bundles[b[n].preset], b[n]);
        Associates(Resolved(bundles, a).value, Resolved(bundles, b[..n]).value, more);
      }
    }
  }

  lemma Associates(a: seq<Metric>, b: seq<Metric>, c: seq<Metric>)
    ensures (a + b) + c == a + (b + c)
  {}

  /** An entry that is no preset stays as it is; a known preset becomes its types
      and then its prefixes, in order, each with the interval, lookback and filter
      of the entry and nothing else; an unknown one fails. */
  lemma ResolvesOne(bundles: Bundles, m: Metric)
    ensures m.preset == "" ==> Resolved(bundles, [m]) == Some([m])
    ensures m.preset != "" && m.preset !in bundles ==> Resolved(bundles, [m]) == None
    ensures m.preset != "" && m.preset in bundles ==>
      var b := bundles[m.preset];
      && Resolved(bundles, [m]).Some?
      && var r := Resolved(bundles, [m]).value;
      && |r| == |b.types| + |b.typePrefixes|
      && (forall i :: 0 <= i < |b.types| ==> r[i] == Metric("", b.types[i], "", m.interval, m.lookback, m.filter, ""))
      && forall i :: 0 <= i < |b.typePrefixes| ==> r[|b.types| + i] == Metric("", "", b.typePrefixes[i], m.interval, m.lookback, m.filter, "")
  {
    assert [m][..|[m]| - 1] == [];
    assert Resolved(bundles, [m][..|[m]| - 1]) == Some([]);
    assert [] + [m] == [m];
  }

  /** Two entries are about the same: the same prefix, or the same type without a
      prefix. */
  predicate SameMetric(a: Metric, b: Metric)
  {
    if a.typePrefix != "" then b.typePrefix == a.typePrefix else b.typePrefix == "" && b.typ == a.typ
  }

  /** Entries share a slot exactly if they are about the same. */
  lemma SlotsAreMetrics(a: Metric, b: Metric)
    ensures Key(a) == Key(b) <==> SameMetric(a, b)
  {
    SlotsByKind(a.typePrefix, b.typ);
    SlotsByKind(b.typePrefix, a.typ);
    SameSlot("p:", a.typePrefix, b.typePrefix);
    SameSlot("t:", a.typ, b.typ);
  }

  lemma SlotsByKind(prefix: string, typ: string)
    ensures "p:" + prefix != "t:" + typ
  {
    assert ("p:" + prefix)[0] == 'p' && ("t:" + typ)[0] == 't';
  }

  lemma SameSlot(head: string, a: string, b: string)
    ensures head + a == head + b <==> a == b
  {
    assert (head + a)[|head|..] == a && (head + b)[|head|..] == b;
  }

  /** An entry at a position, and none about the same after it. */
  ghost predicate LastAbout(out: seq<Metric>, m: Metric, x: nat)
  {
    x < |out| && out[x] == m && forall y :: x < y < |out| ==> !SameMetric(out[y], m)
  }

  ghost predicate IsLastAbout(out: seq<Metric>, m: Metric)
  {
    exists x: nat :: LastAbout(out, m, x)
  }

  /** Some entry of the list is about the same. */
  ghost predicate Mentions(list: seq<Metric>, m: Metric)
  {
    exists i :: 0 <= i < |list| && SameMetric(list[i], m)
  }

  /** Something about `a` comes before anything about `b`. */
  ghost predicate ComesFirst(out: seq<Metric>, a: Metric, b: Metric)
  {
    exists x :: 0 <= x < |out| && SameMetric(out[x], a) && forall y :: 0 <= y <= x ==> !SameMetric(out[y], b)
  }

  /** What deduplication makes of a list: of each metric the last entry about it,
      in the order in which the metrics first come up. */
  lemma DeduplicatedList(out: seq<Metric>, deduped: seq<Metric>)
    requires Deduplicates(out, deduped)
    ensures forall i :: 0 <= i < |deduped| ==> IsLastAbout(out, deduped[i])
    ensures forall x :: 0 <= x < |out| ==> Mentions(deduped, out[x])
    ensures forall i, j :: 0 <= i < j < |deduped| ==> !SameMetric(deduped[i], deduped[j]) && ComesFirst(out, deduped[i], deduped[j])
  {
    hide *;
    forall i | 0 <= i < |deduped|
      ensures IsLastAbout(out, deduped[i])
    {
      EachIsLast(out, deduped, i);
    }
    forall x | 0 <= x < |out|
      ensures Mentions(deduped, out[x])
    {
      AllAreThere(out, deduped, x);
    }
    forall i, j | 0 <= i < j < |deduped|
      ensures !SameMetric(deduped[i], deduped[j]) && ComesFirst(out, deduped[i], deduped[j])
    {
      OrderIsKept(out, deduped, i, j);
    }
  }

  lemma KeyOfSlot(out: seq<Metric>, deduped: seq<Metric>, i: nat)
    requires Deduplicates(out, deduped) && i < |deduped|
    ensures i < |FirstKeys(out)| && Key(deduped[i]) == FirstKeys(out)[i] && LastWith(out, FirstKeys(out)[i]) == Some(deduped[i])
  {
    KeysOccur(out, FirstKeys(out)[i]);
  }

  lemma EachIsLast(out: seq<Metric>, deduped: seq<Metric>, i: nat)
    requires Deduplicates(out, deduped) && i < |deduped|
    ensures IsLastAbout(out, deduped[i])
  {
    KeyOfSlot(out, deduped, i);
    hide FirstKeys, LastWith, Key, LastAbout;
    var x := LastIsLast(out, FirstKeys(out)[i]);
  }

  lemma AllAreThere(out: seq<Metric>, deduped: seq<Metric>, x: nat)
    requires Deduplicates(out, deduped) && x < |out|
    ensures Mentions(deduped, out[x])
  {
    MemberHasKey(out, out[x]);
    KeysOccur(out, Key(out[x]));
    var i :| 0 <= i < |FirstKeys(out)| && FirstKeys(out)[i] == Key(out[x]);
    KeyOfSlot(out, deduped, i);
    SlotsAreMetrics(deduped[i], out[x]);
  }

  lemma OrderIsKept(out: seq<Metric>, deduped: seq<Metric>, i: nat, j: nat)
    requires Deduplicates(out, deduped) && i < j < |deduped|
    ensures !SameMetric(deduped[i], deduped[j]) && ComesFirst(out, deduped[i], deduped[j])
  {
    KeyOfSlot(out, deduped, i);
    KeyOfSlot(out, deduped, j);
    FirstKeysDistinct(out);
    SlotsAreMetrics(deduped[i], deduped[j]);
    hide FirstKeys, LastWith, Key, SameMetric, ComesFirst;
    var x := FirstComesFirst(out, i, j);
    AboutKeys(out, deduped[i], deduped[j], x);
  }

  lemma AboutKeys(out: seq<Metric>, a: Metric, b: Metric, x: nat)
    requires x < |out| && Key(out[x]) == Key(a) && forall y :: 0 <= y <= x ==> Key(out[y]) != Key(b)
    ensures ComesFirst(out, a, b)
  {
    SlotsAreMetrics(out[x], a);
    forall y | 0 <= y <= x
      ensures !SameMetric(out[y], b)
    {
      SlotsAreMetrics(out[y], b);
    }
  }

  lemma {:induction false} LastIsLast(out: seq<Metric>, k: string) returns (x: nat)
    requires LastWith(out, k).Some? && Key(LastWith(out, k).value) == k
    ensures LastAbout(out, LastWith(out, k).value, x)
  {
    var n := |out| - 1;
    if Key(out[n]) == k {
      x := n;
    } else {
      x := LastIsLast(out[..n], k);
      SlotsAreMetrics(out[n], LastWith(out, k).value);
      assert LastWith(out, k) == LastWith(out[..n], k);
      hide SameMetric, Key, LastWith, LastAbout;
      LastAboutLonger(out, LastWith(out, k).value, x);
    }
  }

  lemma LastAboutLonger(out: seq<Metric>, m: Metric, x: nat)
    requires out != [] && LastAbout(out[..|out| - 1], m, x) && !SameMetric(out[|out| - 1], m)
    ensures LastAbout(out, m, x)
  {
    hide SameMetric;
    assert forall y :: 0 <= y < |out| - 1 ==> out[..|out| - 1][y] == out[y];
  }

  /** Keys are listed in the order in which they first occur. */
  lemma {:induction false} FirstComesFirst(out: seq<Metric>, i: nat, j: nat) returns (x: nat)
    requires i < j < |FirstKeys(out)|
    ensures x < |out| && Key(out[x]) == FirstKeys(out)[i]
    ensures forall y :: 0 <= y <= x ==> Key(out[y]) != FirstKeys(out)[j]
  {
    var n := |out| - 1;
    var front := out[..n];
    assert forall y :: 0 <= y < n ==> front[y] == out[y];
    FirstKeysDistinct(out);
    KeysExtend(out);
    if j < |FirstKeys(front)| {
      x := FirstComesFirst(front, i, j);
    } else {
      KeysOccur(front, FirstKeys(front)[i]);
      x := PlaceOf(front, FirstKeys(front)[i]);
      NewKey(front, FirstKeys(out)[j]);
    }
    hide FirstKeys, Key, LastWith;
  }

  lemma KeysExtend(out: seq<Metric>)
    requires out != []
    ensures var front := FirstKeys(out[..|out| - 1]);
      |front| <= |FirstKeys(out)| <= |front| + 1 && FirstKeys(out)[..|front|] == front
    ensures |FirstKeys(out)| > |FirstKeys(out[..|out| - 1])| ==> FirstKeys(out)[|FirstKeys(out)| - 1] !in FirstKeys(out[..|out| - 1])
    ensures forall i :: 0 <= i < |FirstKeys(out[..|out| - 1])| ==> FirstKeys(out)[i] == FirstKeys(out[..|out| - 1])[i]
  {}

  /** A key not listed does not occur. */
  lemma NewKey(out: seq<Metric>, k: string)
    requires k !in FirstKeys(out)
    ensures forall y :: 0 <= y < |out| ==> Key(out[y]) != k
  {
    forall y | 0 <= y < |out|
      ensures Key(out[y]) != k
    {
      MemberHasKey(out, out[y]);
      KeysOccur(out, Key(out[y]));
    }
  }

  lemma PlaceOf(out: seq<Metric>, k: string) returns (x: nat)
    requires LastWith(out, k).Some? && LastWith(out, k).value in out && Key(LastWith(out, k).value) == k
    ensures x < |out| && Key(out[x]) == k
  {
    x :| 0 <= x < |out| && out[x] == LastWith(out, k).value;
  }
}
