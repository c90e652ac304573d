/** Metric descriptors derived from scraped families, merged with and checked
    against those stored before (prometheus-to-sd/translator/translator.go and
    metric_descriptor_cache.go). */
module Descriptors {
  import opened Basics

  datatype FamilyType = CounterType | GaugeType | SummaryType | UntypedType | HistogramType
  datatype Kind = Gauge | Cumulative
  datatype ValueType = Bool | Int64 | Double | Distribution | Other

  /** A label of a descriptor; scraped labels have a key and nothing else. */
  datatype LabelDescriptor = LabelDescriptor(key: string, details: string)
  datatype Descriptor = Descriptor(description: string, typ: string, kind: Kind, valueType: ValueType, labels: seq<LabelDescriptor>)

  /** A scraped family: the label names of each of its metrics. */
  datatype Family = Family(name: string, help: string, typ: FamilyType, metrics: seq<seq<string>>)

  /** How names become metric types, and which labels are the metric's own
      rather than the pod's. */
  datatype Naming = Naming(metricType: string -> string, isMetricLabel: string -> bool)

  function ExtractKind(t: FamilyType): Kind
  {
    if t.CounterType? || t.HistogramType? then Cumulative else Gauge
  }

  function ExtractValueType(t: FamilyType, original: Option<Descriptor>): ValueType
  {
    if original.Some? then original.value.valueType
    else if t.HistogramType? then Distribution
    else if t.UntypedType? then Double
    else Int64
  }

  // ----------------------------------------------------------------- labels

  function Keys(labels: seq<LabelDescriptor>): set<string>
  {
    set l | l in labels :: l.key
  }

  /** Adds a label unless its key is there. */
  function Join(labels: seq<LabelDescriptor>, l: LabelDescriptor): seq<LabelDescriptor>
  {
    if l.key in Keys(labels) then labels else labels + [l]
  }

  function JoinNames(n: Naming, labels: seq<LabelDescriptor>, names: seq<string>): seq<LabelDescriptor>
  {
    if names == [] then labels else
    var before := JoinNames(n, labels, names[..|names| - 1]);
    var name := names[|names| - 1];
    if n.isMetricLabel(name) then Join(before, LabelDescriptor(name, "")) else before
  }

  function JoinMetrics(n: Naming, metrics: seq<seq<string>>): seq<LabelDescriptor>
  {
    if metrics == [] then [] else
    JoinNames(n, JoinMetrics(n, metrics[..|metrics| - 1]), metrics[|metrics| - 1])
  }

  function JoinAll(labels: seq<LabelDescriptor>, more: seq<LabelDescriptor>): seq<LabelDescriptor>
  {
    if more == [] then labels else Join(JoinAll(labels, more[..|more| - 1]), more[|more| - 1])
  }

  function OriginalLabels(original: Option<Descriptor>): seq<LabelDescriptor>
  {
    match original
    case None => []
    case Some(d) => d.labels
  }

  function AllLabels(n: Naming, f: Family, original: Option<Descriptor>): seq<LabelDescriptor>
  {
    JoinAll(JoinMetrics(n, f.metrics), OriginalLabels(original))
  }

  method ExtractAllLabels(n: Naming, f: Family, original: Option<Descriptor>) returns (labels: seq<LabelDescriptor>)
    ensures labels == AllLabels(n, f, original)
  {
    labels := [];
    var labelSet: set<string> := {};
    for i := 0 to |f.metrics|
      invariant labels == JoinMetrics(n, f.metrics[..i]) && labelSet == Keys(labels)
    {
      var names := f.metrics[i];
      ghost var before := labels;
      for j := 0 to |names|
        invariant labels == JoinNames(n, before, names[..j]) && labelSet == Keys(labels)
      {
        assert names[..j + 1][..j] == names[..j];
        if !n.isMetricLabel(names[j]) {
          continue;
        }
        if names[j] !in labelSet {
          KeysSnoc(labels, LabelDescriptor(names[j], ""));
          labels := labels + [LabelDescriptor(names[j], "")];
          labelSet := labelSet + {names[j]};
        }
      }
      assert names[..|names|] == names;
      assert f.metrics[..i + 1][..i] == f.metrics[..i];
    }
    assert f.metrics[..|f.metrics|] == f.metrics;
    if original.Some? {
      ghost var before := labels;
      for i := 0 to |original.value.labels|
        invariant labels == JoinAll(before, original.value.labels[..i]) && labelSet == Keys(labels)
      {
        var l := original.value.labels[i];
        assert original.value.labels[..i + 1][..i] == original.value.labels[..i];
        if l.key !in labelSet {
          KeysSnoc(labels, l);
          labels := labels + [l];
          labelSet := labelSet + {l.key};
        }
      }
      assert original.value.labels[..|original.value.labels|] == original.value.labels;
    }
  }

  lemma KeysSnoc(labels: seq<LabelDescriptor>, l: LabelDescriptor)
    ensures Keys(labels + [l]) == Keys(labels) + {l.key}
  {
    var all := labels + [l];
    assert all[|labels|] in all;
    forall x | x in labels
      ensures x in all
    {}
  }

  predicate DistinctKeys(labels: seq<LabelDescriptor>)
  {
    forall i, j :: 0 <= i < j < |labels| ==> labels[i].key != labels[j].key
  }

  lemma JoinAddsKey(labels: seq<LabelDescriptor>, l: LabelDescriptor)
    ensures Keys(Join(labels, l)) == Keys(labels) + {l.key}
    ensures DistinctKeys(labels) ==> DistinctKeys(Join(labels, l))
  {
    KeysSnoc(labels, l);
  }

  /** The label names of a list of metrics that are the metric's own. */
  function OwnNames(n: Naming, names: seq<string>): set<string>
  {
    set x | x in names && n.isMetricLabel(x)
  }

  function FamilyNames(n: Naming, metrics: seq<seq<string>>): set<string>
  {
    set m, x | m in metrics && x in m && n.isMetricLabel(x) :: x
  }

  lemma {:induction false} JoinNamesKeys(n: Naming, labels: seq<LabelDescriptor>, names: seq<string>)
    ensures Keys(JoinNames(n, labels, names)) == Keys(labels) + OwnNames(n, names)
    ensures DistinctKeys(labels) ==> DistinctKeys(JoinNames(n, labels, names))
  {
    if names != [] {
      var front, name := names[..|names| - 1], names[|names| - 1];
      JoinNamesKeys(n, labels, front);
      JoinAddsKey(JoinNames(n, labels, front), LabelDescriptor(name, ""));
      assert OwnNames(n, names) == OwnNames(n, front) + if n.isMetricLabel(name) then {name} else {};
    }
  }

  lemma {:induction false} JoinMetricsKeys(n: Naming, metrics: seq<seq<string>>)
    ensures Keys(JoinMetrics(n, metrics)) == FamilyNames(n, metrics) && DistinctKeys(JoinMetrics(n, metrics))
  {
    if metrics != [] {
      var front, names := metrics[..|metrics| - 1], metrics[|metrics| - 1];
      JoinMetricsKeys(n, front);
      JoinNamesKeys(n, JoinMetrics(n, front), names);
      forall x
        ensures x in FamilyNames(n, metrics) <==> x in FamilyNames(n, front) || x in OwnNames(n, names)
      {
        assert names in metrics;
        assert forall m :: m in metrics <==> m in front || m == names;
      }
    }
  }

  lemma {:induction false} JoinAllKeys(labels: seq<LabelDescriptor>, more: seq<LabelDescriptor>)
    ensures Keys(JoinAll(labels, more)) == Keys(labels) + Keys(more)
    ensures DistinctKeys(labels) ==> DistinctKeys(JoinAll(labels, more))
  {
    if more != [] {
      var front, l := more[..|more| - 1], more[|more| - 1];
      JoinAllKeys(labels, front);
      JoinAddsKey(JoinAll(labels, front), l);
      KeysSnoc(front, l);
      assert more == front + [l];
    }
  }

  /** The merged labels have no key twice, and exactly the keys of the family's
      own labels and of the stored descriptor. */
  lemma MergedLabels(n: Naming, f: Family, original: Option<Descriptor>)
    ensures DistinctKeys(AllLabels(n, f, original))
    ensures Keys(AllLabels(n, f, original)) == FamilyNames(n, f.metrics) + Keys(OriginalLabels(original))
  {
    JoinMetricsKeys(n, f.metrics);
    JoinAllKeys(JoinMetrics(n, f.metrics), OriginalLabels(original));
  }

  function ToDescriptor(n: Naming, f: Family, original: Option<Descriptor>): Descriptor
  {
    Descriptor(f.help, n.metricType(f.name), ExtractKind(f.typ), ExtractValueType(f.typ, original), AllLabels(n, f, original))
  }

  // ----------------------------------------------------------------- changes

  predicate LabelSetChanged(original: Descriptor, checked: Descriptor)
  {
    exists l :: l in checked.labels && l.key !in Keys(original.labels)
  }

  /** The nested search of the source. */
  method FindLabelSetChanged(original: Descriptor, checked: Descriptor) returns (changed: bool)
    ensures changed == LabelSetChanged(original, checked)
  {
    for i := 0 to |checked.labels|
      invariant forall k :: 0 <= k < i ==> checked.labels[k].key in Keys(original.labels)
    {
      var label_ := checked.labels[i];
      var found := false;
      for j := 0 to |original.labels|
        invariant !found && forall k :: 0 <= k < j ==> original.labels[k].key != label_.key
      {
        if label_.key == original.labels[j].key {
          found := true;
          assert original.labels[j] in original.labels;
          break;
        }
      }
      if !found {
        assert label_ in checked.labels;
        return true;
      }
    }
    changed := false;
  }

  predicate Changed(original: Descriptor, checked: Descriptor)
  {
    original.description != checked.description || LabelSetChanged(original, checked) || original.kind != checked.kind
  }

  /** A family disagrees with a stored descriptor in its labels exactly if it
      has a label of its own that the descriptor lacks. */
  lemma LabelsChangeIffNew(n: Naming, f: Family, d: Descriptor)
    ensures LabelSetChanged(d, ToDescriptor(n, f, Some(d))) <==> !(FamilyNames(n, f.metrics) <= Keys(d.labels))
  {
    var checked := ToDescriptor(n, f, Some(d));
    MergedLabels(n, f, Some(d));
    forall x | x in FamilyNames(n, f.metrics) && x !in Keys(d.labels)
      ensures LabelSetChanged(d, checked)
    {
      assert x in Keys(checked.labels);
    }
    if l :| l in checked.labels && l.key !in Keys(d.labels) {
      assert l.key in Keys(checked.labels);
    }
  }

  // -------------------------------------------------------------- the cache

  datatype State = State(descriptors: map<string, Descriptor>, broken: set<string>, recent: bool)

  const EMPTY := State(map[], {}, false)

  function Stored(s: State, name: string): Option<Descriptor>
  {
    if name in s.descriptors then Some(s.descriptors[name]) else None
  }

  /** Whether presenting a family leads to a write. */
  predicate NeedsWrite(n: Naming, s: State, f: Family)
  {
    f.name !in s.descriptors || Changed(s.descriptors[f.name], ToDescriptor(n, f, Stored(s, f.name)))
  }

  /** One family presented; `accepts` tells which writes the service takes. */
  function Present(n: Naming, accepts: Descriptor -> bool, s: State, f: Family): State
  {
    var d := ToDescriptor(n, f, Stored(s, f.name));
    if !NeedsWrite(n, s, f) then s
    else if accepts(d) then s.(descriptors := s.descriptors[f.name := d])
    else s.(broken := s.broken + {f.name})
  }

  predicate Whitelisted(name: string, whitelisted: seq<string>)
  {
    whitelisted == [] || name in whitelisted
  }

  /** A write the service took is not repeated, and one it refused changes
      nothing more: presenting a family a second time leaves the state alone. */
  lemma SecondPresentation(n: Naming, accepts: Descriptor -> bool, s: State, f: Family)
    ensures var s' := Present(n, accepts, s, f);
      && Present(n, accepts, s', f) == s'
      && (NeedsWrite(n, s', f) <==> NeedsWrite(n, s, f) && !accepts(ToDescriptor(n, f, Stored(s, f.name))))
  {
    var s' := Present(n, accepts, s, f);
    var d := ToDescriptor(n, f, Stored(s, f.name));
    if NeedsWrite(n, s, f) && accepts(d) {
      MergedLabels(n, f, Stored(s, f.name));
      LabelsChangeIffNew(n, f, d);
      assert FamilyNames(n, f.metrics) <= Keys(d.labels);
    }
  }

  /** Presenting a family touches no other name, loses no descriptor, no label
      key and no broken mark, and never changes a stored value type. */
  lemma PresentOnlyGrows(n: Naming, accepts: Descriptor -> bool, s: State, f: Family)
    ensures var s' := Present(n, accepts, s, f);
      && s'.recent == s.recent && s.broken <= s'.broken <= s.broken + {f.name}
      && s'.descriptors - {f.name} == s.descriptors - {f.name}
      && forall name :: name in s.descriptors ==>
        && name in s'.descriptors
        && Keys(s.descriptors[name].labels) <= Keys(s'.descriptors[name].labels)
        && s'.descriptors[name].valueType == s.descriptors[name].valueType
  {
    MergedLabels(n, f, Stored(s, f.name));
  }

  // --------------------------------------------- what it comes to, written out

  /** Some metric of the family has a label of its own that the descriptor
      lacks. */
  ghost predicate HasNewLabel(n: Naming, f: Family, d: Descriptor)
  {
    exists m, x :: m in f.metrics && x in m && n.isMetricLabel(x) && forall l :: l in d.labels ==> l.key != x
  }

  lemma NewLabels(n: Naming, f: Family, d: Descriptor)
    ensures HasNewLabel(n, f, d) <==> !(FamilyNames(n, f.metrics) <= Keys(d.labels))
  {
    if x :| x in FamilyNames(n, f.metrics) && x !in Keys(d.labels) {
      var m :| m in f.metrics && x in m && n.isMetricLabel(x);
      forall l | l in d.labels
        ensures l.key != x
      {
        assert l.key in Keys(d.labels);
      }
    }
    if m, x :| m in f.metrics && x in m && n.isMetricLabel(x) && forall l :: l in d.labels ==> l.key != x {
      assert x in FamilyNames(n, f.metrics) && x !in Keys(d.labels);
    }
  }

  /** What makes presenting a family lead to a write: there is no descriptor yet,
      the help text is another, the family is cumulative (a counter or histogram)
      and the descriptor is not or the other way round, or there is a new label. */
  lemma NeedsWriteExactly(n: Naming, s: State, f: Family)
    ensures NeedsWrite(n, s, f) <==>
      || f.name !in s.descriptors
      || s.descriptors[f.name].description != f.help
      || (s.descriptors[f.name].kind == Cumulative) != (f.typ == CounterType || f.typ == HistogramType)
      || HasNewLabel(n, f, s.descriptors[f.name])
  {
    if f.name in s.descriptors {
      LabelsChangeIffNew(n, f, s.descriptors[f.name]);
      NewLabels(n, f, s.descriptors[f.name]);
    }
    hide HasNewLabel, LabelSetChanged, AllLabels, FamilyNames, Keys;
  }

  /** What a write stores if the service takes it: help text, metric type and kind
      of the family, a value type that stays what it was and is at first by the
      type of the family, and the labels merged. If not, the family is broken. */
  lemma WhatIsWritten(n: Naming, accepts: Descriptor -> bool, s: State, f: Family)
    requires NeedsWrite(n, s, f)
    ensures var d, s' := ToDescriptor(n, f, Stored(s, f.name)), Present(n, accepts, s, f);
      && d.description == f.help && d.typ == n.metricType(f.name)
      && d.kind == (match f.typ case CounterType => Cumulative case HistogramType => Cumulative case _ => Gauge)
      && d.valueType == (
        if f.name in s.descriptors then s.descriptors[f.name].valueType
        else match f.typ case HistogramType => Distribution case UntypedType => Double case _ => Int64)
      && s' == if accepts(d) then s.(descriptors := s.descriptors[f.name := d]) else s.(broken := s.broken + {f.name})
  {
    hide AllLabels;
  }

  /** Of the labels merged, the family's own say nothing but their name, and those
      only the stored descriptor has are as they were. */
  lemma LabelsMerged(n: Naming, f: Family, original: Option<Descriptor>)
    ensures forall l :: l in AllLabels(n, f, original) ==>
      if l.key in FamilyNames(n, f.metrics) then l == LabelDescriptor(l.key, "") else original.Some? && l in original.value.labels
    ensures original.Some? && DistinctKeys(original.value.labels) ==>
      forall l :: l in original.value.labels && l.key !in FamilyNames(n, f.metrics) ==> l in AllLabels(n, f, original)
  {
    var own := JoinMetrics(n, f.metrics);
    JoinMetricsKeys(n, f.metrics);
    MetricsAreBare(n, f.metrics);
    JoinedFrom(own, OriginalLabels(original));
    forall l | l in own
      ensures l.key in FamilyNames(n, f.metrics)
    {
      assert l.key in Keys(own);
    }
    if original.Some? && DistinctKeys(original.value.labels) {
      JoinedAll(own, original.value.labels);
    }
    hide FamilyNames, JoinMetrics, JoinAll, Keys;
  }

  /** Labels come in the order in which they first occur, the family's own before
      those of the stored descriptor: more names, more metrics or more stored
      labels only add labels at the end. */
  lemma FirstOccurrenceFirst(n: Naming, f: Family, front: seq<seq<string>>, names: seq<string>, more: seq<string>,
                             back: seq<seq<string>>, d: Descriptor, some: seq<LabelDescriptor>, rest: seq<LabelDescriptor>)
    ensures var part, whole := f.(metrics := front + [names]), f.(metrics := front + [names + more] + back);
      AllLabels(n, part, None) <= AllLabels(n, whole, None) <= AllLabels(n, whole, Some(d.(labels := some)))
        <= AllLabels(n, whole, Some(d.(labels := some + rest)))
  {
    var own := JoinMetrics(n, front + [names + more] + back);
    assert (front + [names])[..|front|] == front && (front + [names + more])[..|front|] == front;
    NamesAtTheEnd(n, JoinMetrics(n, front), names, more);
    MetricsAtTheEnd(n, front + [names + more], back);
    LabelsAtTheEnd(own, [], some);
    LabelsAtTheEnd(own, some, rest);
    assert [] + some == some;
  }

  lemma {:induction false} NamesAtTheEnd(n: Naming, labels: seq<LabelDescriptor>, names: seq<string>, more: seq<string>)
    ensures JoinNames(n, labels, names) <= JoinNames(n, labels, names + more)
  {
    if more == [] {
      assert names + more == names;
    } else {
      assert (names + more)[..|names + more| - 1] == names + more[..|more| - 1];
      NamesAtTheEnd(n, labels, names, more[..|more| - 1]);
    }
  }

  lemma {:induction false} MetricsAtTheEnd(n: Naming, metrics: seq<seq<string>>, more: seq<seq<string>>)
    ensures JoinMetrics(n, metrics) <= JoinMetrics(n, metrics + more)
  {
    if more == [] {
      assert metrics + more == metrics;
    } else {
      var front, names := more[..|more| - 1], more[|more| - 1];
      assert (metrics + more)[..|metrics + more| - 1] == metrics + front;
      MetricsAtTheEnd(n, metrics, front);
      NamesAtTheEnd(n, JoinMetrics(n, metrics + front), [], names);
      assert [] + names == names;
    }
  }

  lemma {:induction false} LabelsAtTheEnd(labels: seq<LabelDescriptor>, some: seq<LabelDescriptor>, more: seq<LabelDescriptor>)
    ensures JoinAll(labels, some) <= JoinAll(labels, some + more)
  {
    if more == [] {
      assert some + more == some;
    } else {
      assert (some + more)[..|some + more| - 1] == some + more[..|more| - 1];
      LabelsAtTheEnd(labels, some, more[..|more| - 1]);
    }
  }

  lemma {:induction false} NamesAreBare(n: Naming, labels: seq<LabelDescriptor>, names: seq<string>)
    requires forall l :: l in labels ==> l.details == ""
    ensures forall l :: l in JoinNames(n, labels, names) ==> l.details == ""
  {
    if names != [] {
      NamesAreBare(n, labels, names[..|names| - 1]);
    }
  }

  lemma {:induction false} MetricsAreBare(n: Naming, metrics: seq<seq<string>>)
    ensures forall l :: l in JoinMetrics(n, metrics) ==> l.details == ""
  {
    if metrics != [] {
      MetricsAreBare(n, metrics[..|metrics| - 1]);
      NamesAreBare(n, JoinMetrics(n, metrics[..|metrics| - 1]), metrics[|metrics| - 1]);
    }
  }

  lemma {:induction false} JoinedFrom(labels: seq<LabelDescriptor>, more: seq<LabelDescriptor>)
    ensures forall l :: l in JoinAll(labels, more) ==> l in labels || (l in more && l.key !in Keys(labels))
    ensures Keys(labels) <= Keys(JoinAll(labels, more))
  {
    if more != [] {
      JoinedFrom(labels, more[..|more| - 1]);
      JoinAddsKey(JoinAll(labels, more[..|more| - 1]), more[|more| - 1]);
    }
  }

  lemma {:induction false} JoinedAll(labels: seq<LabelDescriptor>, more: seq<LabelDescriptor>)
    requires DistinctKeys(more)
    ensures forall l :: l in more && l.key !in Keys(labels) ==> l in JoinAll(labels, more)
  {
    if more != [] {
      var front, last := more[..|more| - 1], more[|more| - 1];
      JoinedAll(labels, front);
      JoinAllKeys(labels, front);
      DistinctLast(more);
      hide Keys;
    }
  }

  lemma DistinctLast(more: seq<LabelDescriptor>)
    requires more != [] && DistinctKeys(more)
    ensures more[|more| - 1].key !in Keys(more[..|more| - 1])
    ensures forall l :: l in more ==> l in more[..|more| - 1] || l == more[|more| - 1]
  {}

  // ------------------------------------------------- whole scrapes, any order

  type Families = map<string, Family>

  ghost predicate Keyed(metrics: Families)
  {
    forall name :: name in metrics ==> metrics[name].name == name
  }

  /** The state a scrape leaves, name by name. */
  ghost predicate Updates(n: Naming, accepts: Descriptor -> bool, s: State, metrics: Families, whitelisted: seq<string>, s': State)
  {
    && s'.recent == s.recent
    && forall name ::
      var done := if s.recent && name in metrics && Whitelisted(name, whitelisted) then Present(n, accepts, s, metrics[name]) else s;
      Stored(s', name) == Stored(done, name) && (name in s'.broken <==> name in done.broken)
  }

  /** It is determined: the order in which the families come does not matter. */
  lemma UpdatesDetermined(n: Naming, accepts: Descriptor -> bool, s: State, metrics: Families, whitelisted: seq<string>, a: State, b: State)
    requires Updates(n, accepts, s, metrics, whitelisted, a) && Updates(n, accepts, s, metrics, whitelisted, b)
    ensures a == b
  {
    hide Present;
    forall name
      ensures Stored(a, name) == Stored(b, name) && (name in a.broken <==> name in b.broken)
    {}
    assert forall name :: name in a.descriptors <==> Stored(a, name).Some?;
    assert forall name :: name in b.descriptors <==> Stored(b, name).Some?;
    assert a.descriptors == b.descriptors;
    assert a.broken == b.broken;
  }

  /** Presenting is local: it depends on and changes one name. */
  lemma PresentLocal(n: Naming, accepts: Descriptor -> bool, s: State, t: State, f: Family)
    requires Stored(s, f.name) == Stored(t, f.name)
    ensures Stored(Present(n, accepts, s, f), f.name) == Stored(Present(n, accepts, t, f), f.name)
    ensures NeedsWrite(n, s, f) == NeedsWrite(n, t, f)
    ensures (f.name in Present(n, accepts, s, f).broken <==> f.name in s.broken || (NeedsWrite(n, s, f) && !accepts(ToDescriptor(n, f, Stored(s, f.name)))))
  {}

  /** The same scrape again changes nothing. */
  lemma ScrapeIsIdempotent(n: Naming, accepts: Descriptor -> bool, s: State, metrics: Families, whitelisted: seq<string>, a: State, b: State)
    requires Keyed(metrics)
    requires Updates(n, accepts, s, metrics, whitelisted, a) && Updates(n, accepts, a, metrics, whitelisted, b)
    ensures b == a
  {
    forall name
      ensures Stored(b, name) == Stored(a, name) && (name in b.broken <==> name in a.broken)
    {
      hide Present, NeedsWrite, ToDescriptor;
      if s.recent && name in metrics && Whitelisted(name, whitelisted) {
        var f := metrics[name];
        var once := Present(n, accepts, s, f);
        SecondPresentation(n, accepts, s, f);
        PresentLocal(n, accepts, a, once, f);
        PresentLocal(n, accepts, once, once, f);
        PresentLocal(n, accepts, s, s, f);
      }
    }
    assert forall name :: name in a.descriptors <==> Stored(a, name).Some?;
    assert forall name :: name in b.descriptors <==> Stored(b, name).Some?;
    assert a.descriptors == b.descriptors;
    assert a.broken == b.broken;
  }

  // -------------------------------------------------------------- validation

  /** A family that must not be changed is marked broken if it has. */
  function Check(n: Naming, s: State, f: Family): State
  {
    if f.name !in s.descriptors then s else
    var d := s.descriptors[f.name];
    var checked := ToDescriptor(n, f, Some(d));
    if LabelSetChanged(d, checked) || d.kind != checked.kind then s.(broken := s.broken + {f.name}) else s
  }

  ghost predicate Validates(n: Naming, s: State, metrics: Families, whitelisted: seq<string>, s': State)
  {
    && s'.recent == s.recent && s'.descriptors == s.descriptors
    && forall name :: name in s'.broken <==>
      || name in s.broken
      || (s.recent && name in metrics && Whitelisted(name, whitelisted) && name in Check(n, s, metrics[name]).broken)
  }

  /** A family is marked exactly if it has a label of its own its stored
      descriptor lacks, or another kind. */
  lemma CheckMarksChanges(n: Naming, s: State, f: Family)
    requires f.name !in s.broken
    ensures f.name in Check(n, s, f).broken <==>
      && f.name in s.descriptors
      && (HasNewLabel(n, f, s.descriptors[f.name])
          || (s.descriptors[f.name].kind == Cumulative) != (f.typ == CounterType || f.typ == HistogramType))
  {
    if f.name in s.descriptors {
      LabelsChangeIffNew(n, f, s.descriptors[f.name]);
      NewLabels(n, f, s.descriptors[f.name]);
    }
  }

  /** A scrape leads to a write exactly for the families that are listed, or all
      if nothing is, and need one. */
  lemma WrittenExactly(n: Naming, s: State, metrics: Families, whitelisted: seq<string>, name: string)
    requires Keyed(metrics)
    ensures name in Written(n, s, metrics, whitelisted) <==>
      && name in metrics
      && (|whitelisted| == 0 || exists i :: 0 <= i < |whitelisted| && whitelisted[i] == name)
      && (|| name !in s.descriptors
          || s.descriptors[name].description != metrics[name].help
          || (s.descriptors[name].kind == Cumulative) != (metrics[name].typ == CounterType || metrics[name].typ == HistogramType)
          || HasNewLabel(n, metrics[name], s.descriptors[name]))
  {
    if name in metrics {
      NeedsWriteExactly(n, s, metrics[name]);
    }
    hide NeedsWrite, HasNewLabel;
  }

  // -------------------------------------------------------------------- runs

  datatype Op =
    | Update(metrics: Families, whitelisted: seq<string>, accepts: Descriptor -> bool)
    | Validate(metrics: Families, whitelisted: seq<string>)
    | MarkStale
    | Refresh(fetched: Option<map<string, Descriptor>>)

  ghost predicate Steps(n: Naming, s: State, op: Op, s': State)
  {
    match op
    case Update(metrics, whitelisted, accepts) => Keyed(metrics) && Updates(n, accepts, s, metrics, whitelisted, s')
    case Validate(metrics, whitelisted) => Keyed(metrics) && Validates(n, s, metrics, whitelisted, s')
    case MarkStale => s' == s.(recent := false)
    case Refresh(fetched) => s' == match fetched case None => s case Some(ds) => State(ds, {}, true)
  }

  ghost predicate Run(n: Naming, ss: seq<State>, ops: seq<Op>)
  {
    |ss| == |ops| + 1 && forall i :: 0 <= i < |ops| ==> Steps(n, ss[i], ops[i], ss[i + 1])
  }

  predicate Refreshes(op: Op)
  {
    op.Refresh? && op.fetched.Some?
  }

  lemma StepOnlyGrows(n: Naming, s: State, op: Op, s': State, name: string)
    requires Steps(n, s, op, s') && !Refreshes(op)
    ensures name in s.broken ==> name in s'.broken
    ensures name in s.descriptors ==>
      && name in s'.descriptors
      && Keys(s.descriptors[name].labels) <= Keys(s'.descriptors[name].labels)
      && s'.descriptors[name].valueType == s.descriptors[name].valueType
    ensures !s.recent ==> Stored(s', name) == Stored(s, name) && (name in s'.broken <==> name in s.broken)
  {
    match op {
      case Update(metrics, whitelisted, accepts) =>
        if name in metrics {
          PresentOnlyGrows(n, accepts, s, metrics[name]);
        }
        hide Present;
        assert Stored(s', name).Some? <==> name in s'.descriptors;
      case _ =>
    }
  }

  /** Between successful refreshes a broken mark persists, no descriptor is
      lost, its labels only grow and its value type stays. */
  lemma {:induction false} OnlyRefreshForgets(n: Naming, ss: seq<State>, ops: seq<Op>, i: nat, j: nat, name: string)
    requires Run(n, ss, ops) && i <= j < |ss|
    requires forall k :: i <= k < j ==> !Refreshes(ops[k])
    ensures name in ss[i].broken ==> name in ss[j].broken
    ensures name in ss[i].descriptors ==>
      && name in ss[j].descriptors
      && Keys(ss[i].descriptors[name].labels) <= Keys(ss[j].descriptors[name].labels)
      && ss[j].descriptors[name].valueType == ss[i].descriptors[name].valueType
    decreases j
  {
    if i < j {
      OnlyRefreshForgets(n, ss, ops, i, j - 1, name);
      hide Steps, Keys;
      assert Steps(n, ss[j - 1], ops[j - 1], ss[j]);
      StepOnlyGrows(n, ss[j - 1], ops[j - 1], ss[j], name);
    }
  }

  // --------------------------------------------------------------- the object

  class MetricDescriptorCache {
    const naming: Naming
    var descriptors: map<string, Descriptor>
    var broken: map<string, bool>
    var recent: bool

    ghost function View(): State
      reads this
    {
      State(descriptors, (set name | name in broken && broken[name]), recent)
    }

    constructor (naming: Naming)
      ensures this.naming == naming && View() == EMPTY
    {
      this.naming := naming;
      descriptors, broken, recent := map[], map[], false;
    }

    predicate IsMetricBroken(name: string)
      reads this
      ensures IsMetricBroken(name) <==> name in View().broken
    {
      name in broken && broken[name]
    }

    method MarkStale()
      modifies this
      ensures Steps(naming, old(View()), Op.MarkStale, View())
    {
      recent := false;
    }

    method Refresh(fetched: Option<map<string, Descriptor>>)
      modifies this
      ensures Steps(naming, old(View()), Op.Refresh(fetched), View())
    {
      if fetched.Some? {
        descriptors := fetched.value;
        broken := map[];
        recent := true;
      }
    }

    method UpdateIfStale(f: Family, accepts: Descriptor -> bool) returns (written: bool)
      modifies this`descriptors, this`broken
      ensures View() == Present(naming, accepts, old(View()), f)
      ensures written <==> old(NeedsWrite(naming, View(), f))
    {
      var original := if f.name in descriptors then Some(descriptors[f.name]) else None;
      var labels := ExtractAllLabels(naming, f, original);
      var d := Descriptor(f.help, naming.metricType(f.name), ExtractKind(f.typ), ExtractValueType(f.typ, original), labels);
      written := original.None?;
      if original.Some? {
        var changed := FindLabelSetChanged(original.value, d);
        written := original.value.description != d.description || changed || original.value.kind != d.kind;
      }
      if written {
        if accepts(d) {
          descriptors := descriptors[f.name := d];
        } else {
          broken := broken[f.name := true];
        }
      }
    }

    method UpdateIfListed(f: Family, whitelisted: seq<string>, accepts: Descriptor -> bool) returns (written: bool)
      modifies this`descriptors, this`broken
      ensures View() == if Whitelisted(f.name, whitelisted) then Present(naming, accepts, old(View()), f) else old(View())
      ensures written <==> Whitelisted(f.name, whitelisted) && NeedsWrite(naming, old(View()), f)
    {
      written := false;
      var listed := IsWhitelisted(f.name, whitelisted);
      if listed {
        written := UpdateIfStale(f, accepts);
      }
    }

    method UpdateMetricDescriptors(metrics: Families, whitelisted: seq<string>, accepts: Descriptor -> bool) returns (written: set<string>)
      requires Keyed(metrics)
      modifies this
      ensures Updates(naming, accepts, old(View()), metrics, whitelisted, View())
      ensures written == if old(recent) then Written(naming, old(View()), metrics, whitelisted) else {}
    {
      hide Updates, Written, Present, Whitelisted, NeedsWrite, Stored;
      NothingUpdated(naming, accepts, View(), metrics, whitelisted);
      written := {};
      if !recent {
        return;
      }
      ghost var s := View();
      ghost var seen: Families := map[];
      var todo := metrics.Keys;
      while todo != {}
        invariant todo <= metrics.Keys && recent && seen == metrics - todo
        invariant Updates(naming, accepts, s, seen, whitelisted, View())
        invariant written == Written(naming, s, seen, whitelisted)
        decreases |todo|
      {
        var name :| name in todo;
        UpdatesOneMore(naming, accepts, s, seen, whitelisted, View(), metrics[name]);
        OneFewer(metrics, todo, name);
        seen := seen[name := metrics[name]];
        todo := todo - {name};
        var write := UpdateIfListed(metrics[name], whitelisted, accepts);
        if write {
          written := written + {name};
        }
      }
      assert metrics - {} == metrics;
    }

    /** Marks as broken the families that differ from what is stored. */
    method ValidateMetricDescriptors(metrics: Families, whitelisted: seq<string>)
      requires Keyed(metrics)
      modifies this
      ensures Steps(naming, old(View()), Validate(metrics, whitelisted), View())
    {
      if !recent {
        return;
      }
      ghost var s := View();
      ghost var seen: Families := map[];
      var todo := metrics.Keys;
      hide Check, Whitelisted;
      while todo != {}
        invariant todo <= metrics.Keys && recent && seen == metrics - todo
        invariant Validates(naming, s, seen, whitelisted, View())
        decreases |todo|
      {
        var name :| name in todo;
        ValidatesOneMore(naming, s, seen, whitelisted, View(), metrics[name]);
        OneFewer(metrics, todo, name);
        seen := seen[name := metrics[name]];
        todo := todo - {name};
        var listed := IsWhitelisted(name, whitelisted);
        if listed {
          CheckFamily(metrics[name]);
        }
      }
      assert metrics - {} == metrics;
    }

    method CheckFamily(f: Family)
      modifies this`broken
      ensures View() == Check(naming, old(View()), f)
    {
      if f.name !in descriptors {
        return;
      }
      var d := descriptors[f.name];
      var labels := ExtractAllLabels(naming, f, Some(d));
      var checked := Descriptor(f.help, naming.metricType(f.name), ExtractKind(f.typ), ExtractValueType(f.typ, Some(d)), labels);
      var changed := FindLabelSetChanged(d, checked);
      if changed || d.kind != checked.kind {
        broken := broken[f.name := true];
      }
    }
  }

  /** An empty list lists every metric. */
  method IsWhitelisted(name: string, whitelisted: seq<string>) returns (r: bool)
    ensures r == Whitelisted(name, whitelisted)
  {
    if |whitelisted| == 0 {
      return true;
    }
    for i := 0 to |whitelisted|
      invariant name !in whitelisted[..i]
    {
      if whitelisted[i] == name {
        return true;
      }
    }
    r := false;
  }

  /** The families a scrape leads to a write for. */
  ghost function Written(n: Naming, s: State, metrics: Families, whitelisted: seq<string>): set<string>
  {
    set name | name in metrics && Whitelisted(name, whitelisted) && NeedsWrite(n, s, metrics[name])
  }

  lemma NothingUpdated(n: Naming, accepts: Descriptor -> bool, s: State, metrics: Families, whitelisted: seq<string>)
    ensures !s.recent ==> Updates(n, accepts, s, metrics, whitelisted, s)
    ensures Updates(n, accepts, s, map[], whitelisted, s) && Written(n, s, map[], whitelisted) == {}
  {}

  lemma OneFewer(metrics: Families, todo: set<string>, name: string)
    requires name in todo && todo <= metrics.Keys
    ensures (metrics - todo)[name := metrics[name]] == metrics - (todo - {name}) && name !in metrics - todo
  {}

  lemma UpdatesOneMore(n: Naming, accepts: Descriptor -> bool, s: State, seen: Families, whitelisted: seq<string>, before: State, f: Family)
    requires s.recent && f.name !in seen && Updates(n, accepts, s, seen, whitelisted, before)
    ensures NeedsWrite(n, before, f) == NeedsWrite(n, s, f)
    ensures Updates(n, accepts, s, seen[f.name := f], whitelisted, if Whitelisted(f.name, whitelisted) then Present(n, accepts, before, f) else before)
    ensures Written(n, s, seen[f.name := f], whitelisted)
      == Written(n, s, seen, whitelisted) + if Whitelisted(f.name, whitelisted) && NeedsWrite(n, before, f) then {f.name} else {}
  {
    hide *;
    NotYet(n, accepts, s, seen, whitelisted, before, f.name);
    PresentLocal(n, accepts, before, s, f);
    UpdatedOneMore(n, accepts, s, seen, whitelisted, before, f);
    WrittenOneMore(n, s, seen, whitelisted, f);
  }

  lemma UpdatedOneMore(n: Naming, accepts: Descriptor -> bool, s: State, seen: Families, whitelisted: seq<string>, before: State, f: Family)
    requires s.recent && f.name !in seen && Updates(n, accepts, s, seen, whitelisted, before)
    ensures Updates(n, accepts, s, seen[f.name := f], whitelisted, if Whitelisted(f.name, whitelisted) then Present(n, accepts, before, f) else before)
  {
    NotYet(n, accepts, s, seen, whitelisted, before, f.name);
    PresentLocal(n, accepts, before, s, f);
    PresentLocal(n, accepts, s, s, f);
    PresentElsewhere(n, accepts, before, f);
    hide Present, NeedsWrite, ToDescriptor, Whitelisted, Stored;
  }

  lemma WrittenOneMore(n: Naming, s: State, seen: Families, whitelisted: seq<string>, f: Family)
    requires f.name !in seen
    ensures Written(n, s, seen[f.name := f], whitelisted)
      == Written(n, s, seen, whitelisted) + if Whitelisted(f.name, whitelisted) && NeedsWrite(n, s, f) then {f.name} else {}
  {
    hide NeedsWrite, Whitelisted;
  }

  lemma NotYet(n: Naming, accepts: Descriptor -> bool, s: State, seen: Families, whitelisted: seq<string>, before: State, name: string)
    requires name !in seen && Updates(n, accepts, s, seen, whitelisted, before)
    ensures Stored(before, name) == Stored(s, name) && (name in before.broken <==> name in s.broken)
  {
    hide Present, Whitelisted, Stored;
  }

  lemma PresentElsewhere(n: Naming, accepts: Descriptor -> bool, s: State, f: Family)
    ensures Present(n, accepts, s, f).recent == s.recent
    ensures forall name :: name != f.name ==>
      Stored(Present(n, accepts, s, f), name) == Stored(s, name) && (name in Present(n, accepts, s, f).broken <==> name in s.broken)
  {
    hide NeedsWrite, ToDescriptor;
  }

  lemma ValidatesOneMore(n: Naming, s: State, seen: Families, whitelisted: seq<string>, before: State, f: Family)
    requires s.recent && f.name !in seen && Validates(n, s, seen, whitelisted, before)
    ensures Validates(n, s, seen[f.name := f], whitelisted, if Whitelisted(f.name, whitelisted) then Check(n, before, f) else before)
  {}
}
