/** CacheDebugger's diff walk: logChanges(parent, current, previous, log,
    indent) merges two key-ordered maps whose values are leaves or nested
    maps, counts the changes, and logs "+"/"-" lines and a trailer. */
module CacheDebugger {
  import opened Wrappers
  import opened Text
  import Directives

  /** A map value: a leaf (a TinySet of entries in the caches), or a nested
      map (a TemplateCache inside a NamespaceCache). */
  datatype Node<L> = Leaf(value: L) | Tree(entries: seq<Entry<L>>)

  /** One map entry, as Map.Entry: a key and its value. The entries of a map
      are listed in iteration order. */
  datatype Entry<L> = Entry(key: string, value: Node<L>)

  /** The object logChanges labels its trailer with. */
  datatype Labelled =
    | TemplateCacheObj(namespace: string)
    | NamespaceCacheObj(moduleName: string)
    | OtherObj(text: string)

  /** A line of the log. `depth` is the indent in steps of four spaces;
      `path` is the chain of keys from the walk's root to the entry (for a
      trailer, to the map it reports on), which the log itself does not
      print. */
  datatype LogLine<L> =
    | Added(depth: nat, path: seq<string>, value: Node<L>)
    | Removed(depth: nat, path: seq<string>, value: Node<L>)
    | Trailer(depth: nat, path: seq<string>, text: string)

  /** What a walk returns and logs. */
  datatype Report<L> = Report(count: nat, lines: seq<LogLine<L>>)

  function Combine<L>(a: Report<L>, b: Report<L>): Report<L> {
    Report(a.count + b.count, a.lines + b.lines)
  }

  function NodeSize<L>(n: Node<L>): nat
    decreases n
  {
    match n
    case Leaf(_) => 1
    case Tree(es) => 1 + EntriesSize(es)
  }

  function EntriesSize<L>(es: seq<Entry<L>>): nat
    decreases es
  {
    if es == [] then 0 else 1 + NodeSize(es[0].value) + EntriesSize(es[1..])
  }

  lemma {:induction false} EntrySizeBound<L>(es: seq<Entry<L>>, i: nat)
    requires i < |es|
    ensures NodeSize(es[i].value) < EntriesSize(es)
    ensures EntriesSize(es[i + 1..]) < EntriesSize(es[i..])
  {
    assert es[i..][0] == es[i] && es[i..][1..] == es[i + 1..];
    if i > 0 {
      assert es[1..][i - 1] == es[i];
      EntrySizeBound(es[1..], i - 1);
    }
  }

  /** getLabel. */
  function GetLabel(obj: Labelled): (r: string)
    ensures obj.TemplateCacheObj? ==> |r| > 18 && r[..18] == "TemplateCache for "
    ensures obj.NamespaceCacheObj? ==> r == "NamespaceCache for module '" + obj.moduleName + "'"
    ensures obj.OtherObj? ==> r == obj.text
  {
    match obj
    case TemplateCacheObj(namespace) =>
      if namespace == Directives.DEFAULT_NAMESPACE then "TemplateCache for default namespace"
      else "TemplateCache for {namespace " + namespace + "}"
    case NamespaceCacheObj(moduleName) => "NamespaceCache for module '" + moduleName + "'"
    case OtherObj(text) => text
  }

  /** Template caches of different namespaces get different labels: the
      default namespace's label cannot be mistaken for any other. */
  lemma TemplateLabelsDistinct(a: string, b: string)
    requires a != b
    ensures GetLabel(TemplateCacheObj(a)) != GetLabel(TemplateCacheObj(b))
  {
    var la, lb := GetLabel(TemplateCacheObj(a)), GetLabel(TemplateCacheObj(b));
    var pre := "TemplateCache for {namespace ";
    if a != Directives.DEFAULT_NAMESPACE && b != Directives.DEFAULT_NAMESPACE {
      assert la == pre + a + "}" && lb == pre + b + "}";
      assert a == la[|pre|..|la| - 1] && b == lb[|pre|..|lb| - 1];
    } else if a != Directives.DEFAULT_NAMESPACE {
      assert la[18] == '{' && lb[18] == 'd';
    } else if b != Directives.DEFAULT_NAMESPACE {
      assert lb[18] == '{' && la[18] == 'd';
    }
  }

  /** Labels of different kinds of cache never coincide. */
  lemma CacheLabelsDistinct(namespace: string, moduleName: string)
    ensures GetLabel(TemplateCacheObj(namespace)) != GetLabel(NamespaceCacheObj(moduleName))
  {
    assert GetLabel(TemplateCacheObj(namespace))[0] == 'T';
    assert GetLabel(NamespaceCacheObj(moduleName))[0] == 'N';
  }

  /** The trailer: "recorded N change(s) to <label>". */
  function TrailerText(n: nat, subject: string): string {
    "recorded " + (NatToString(n) + ((if n == 1 then " change to " else " changes to ") + subject))
  }

  /** The trailer states the count it was given: different counts give
      different trailers. */
  lemma TrailerTextDeterminesCount(n: nat, m: nat, subject: string)
    requires n != m
    ensures TrailerText(n, subject) != TrailerText(m, subject)
  {
    var d1, d2 := NatToString(n), NatToString(m);
    NatToStringRoundTrip(n);
    NatToStringRoundTrip(m);
    var r1 := (if n == 1 then " change to " else " changes to ") + subject;
    var r2 := (if m == 1 then " change to " else " changes to ") + subject;
    DigitsThenSpaceDiffer(d1, d2, r1, r2);
    PrefixedDiffer("recorded ", d1 + r1, d2 + r2);
  }

  /** The merge proper: the three while loops of logChanges, which log the
      lines of one map level at `depth` under the key chain `path`. A key on
      one side only logs its whole value while the other side still has
      entries; once one side is exhausted, a nested map is walked entry by
      entry instead. */
  function Merge<L(==)>(cs: seq<Entry<L>>, ps: seq<Entry<L>>, depth: nat, path: seq<string>): Report<L>
    decreases EntriesSize(cs) + EntriesSize(ps), 1
  {
    if cs != [] && ps != [] then
      EntrySizeBound(cs, 0);
      EntrySizeBound(ps, 0);
      var c, p := cs[0], ps[0];
      var cmp := Compare(c.key, p.key);
      if cmp < 0 then
        Combine(Report(1, [Added(depth, path + [c.key], c.value)]), Merge(cs[1..], ps, depth, path))
      else if cmp > 0 then
        Combine(Report(1, [Removed(depth, path + [p.key], p.value)]), Merge(cs, ps[1..], depth, path))
      else
        var step :=
          if p.value == c.value then Report(0, [])
          else if p.value.Tree? && c.value.Tree? then
            Walk(Some(TemplateCacheObj(c.key)), c.value.entries, p.value.entries, depth, path + [c.key])
          else Report(1, [Removed(depth, path + [p.key], p.value), Added(depth, path + [c.key], c.value)]);
        Combine(step, Merge(cs[1..], ps[1..], depth, path))
    else if cs != [] then
      EntrySizeBound(cs, 0);
      var c := cs[0];
      var step :=
        if c.value.Tree? then Walk(Some(TemplateCacheObj(c.key)), c.value.entries, [], depth, path + [c.key])
        else Report(1, [Added(depth, path + [c.key], c.value)]);
      Combine(step, Merge(cs[1..], [], depth, path))
    else if ps != [] then
      EntrySizeBound(ps, 0);
      var p := ps[0];
      var step :=
        if p.value.Tree? then Walk(Some(TemplateCacheObj(p.key)), [], p.value.entries, depth, path + [p.key])
        else Report(1, [Removed(depth, path + [p.key], p.value)]);
      Combine(step, Merge([], ps[1..], depth, path))
    else Report(0, [])
  }

  /** logChanges(parent, current, previous, log, indent) at indent `depth`:
      the merge one level deeper, then the trailer when something changed
      and there is a parent to name. */
  function Walk<L(==)>(parent: Option<Labelled>, cs: seq<Entry<L>>, ps: seq<Entry<L>>, depth: nat, path: seq<string>): Report<L>
    decreases EntriesSize(cs) + EntriesSize(ps), 2
  {
    var r := Merge(cs, ps, depth + 1, path);
    if r.count > 0 && parent.Some? then
      Report(r.count, r.lines + [Trailer(depth, path, TrailerText(r.count, GetLabel(parent.value)))])
    else r
  }

  /** The number of leaves of a forest. */
  function LeafCount<L>(es: seq<Entry<L>>): nat
    decreases EntriesSize(es)
  {
    if es == [] then 0
    else
      EntrySizeBound(es, 0);
      (match es[0].value
       case Leaf(_) => 1
       case Tree(sub) => LeafCount(sub)) + LeafCount(es[1..])
  }

  /** Keys strictly ascending, as a NavigableMap iterates them. */
  ghost predicate Sorted<L>(es: seq<Entry<L>>) {
    forall i, j :: 0 <= i < j < |es| ==> Less(es[i].key, es[j].key)
  }

  /** Every nested map, at every depth, has at least one entry. */
  ghost predicate NoEmptyTrees<L>(es: seq<Entry<L>>)
    decreases EntriesSize(es)
  {
    if es == [] then true
    else
      EntrySizeBound(es, 0);
      && (es[0].value.Tree? ==> es[0].value.entries != [] && NoEmptyTrees(es[0].value.entries))
      && NoEmptyTrees(es[1..])
  }

  /** Identical maps: no change is counted and nothing is logged, as the
      comment on the equal-value branch says. */
  lemma {:induction false} MergeIdentical<L>(es: seq<Entry<L>>, depth: nat, path: seq<string>)
    ensures Merge(es, es, depth, path) == Report(0, [])
    decreases |es|
  {
    if es != [] {
      CompareZeroIffEqual(es[0].key, es[0].key);
      MergeIdentical(es[1..], depth, path);
    }
  }

  lemma WalkIdentical<L>(parent: Option<Labelled>, es: seq<Entry<L>>, depth: nat, path: seq<string>)
    ensures Walk(parent, es, es, depth, path) == Report(0, [])
  {
    MergeIdentical(es, depth + 1, path);
  }

  /** A walk counts a change exactly when it logs a line. */
  lemma {:induction false} MergeCountsWhatItLogs<L>(cs: seq<Entry<L>>, ps: seq<Entry<L>>, depth: nat, path: seq<string>)
    ensures Merge(cs, ps, depth, path).count == 0 <==> Merge(cs, ps, depth, path).lines == []
    decreases EntriesSize(cs) + EntriesSize(ps), 1
  {
    if cs != [] && ps != [] {
      EntrySizeBound(cs, 0);
      EntrySizeBound(ps, 0);
      var c, p := cs[0], ps[0];
      var cmp := Compare(c.key, p.key);
      if cmp < 0 {
        MergeCountsWhatItLogs(cs[1..], ps, depth, path);
      } else if cmp > 0 {
        MergeCountsWhatItLogs(cs, ps[1..], depth, path);
      } else {
        if p.value != c.value && p.value.Tree? && c.value.Tree? {
          WalkCountsWhatItLogs(Some(TemplateCacheObj(c.key)), c.value.entries, p.value.entries, depth, path + [c.key]);
        }
        MergeCountsWhatItLogs(cs[1..], ps[1..], depth, path);
      }
    } else if cs != [] {
      EntrySizeBound(cs, 0);
      if cs[0].value.Tree? {
        WalkCountsWhatItLogs(Some(TemplateCacheObj(cs[0].key)), cs[0].value.entries, [], depth, path + [cs[0].key]);
      }
      MergeCountsWhatItLogs(cs[1..], [], depth, path);
    } else if ps != [] {
      EntrySizeBound(ps, 0);
      if ps[0].value.Tree? {
        WalkCountsWhatItLogs(Some(TemplateCacheObj(ps[0].key)), [], ps[0].value.entries, depth, path + [ps[0].key]);
      }
      MergeCountsWhatItLogs([], ps[1..], depth, path);
    }
  }

  lemma {:induction false} WalkCountsWhatItLogs<L>(parent: Option<Labelled>, cs: seq<Entry<L>>, ps: seq<Entry<L>>, depth: nat, path: seq<string>)
    ensures Walk(parent, cs, ps, depth, path).count == 0 <==> Walk(parent, cs, ps, depth, path).lines == []
    decreases EntriesSize(cs) + EntriesSize(ps), 2
  {
    MergeCountsWhatItLogs(cs, ps, depth + 1, path);
  }

  /** Against an empty previous map, every leaf of current is one change
      (nested maps are walked, not logged whole, once previous is
      exhausted). */
  lemma {:induction false} MergeAllAdded<L>(cs: seq<Entry<L>>, depth: nat, path: seq<string>)
    ensures Merge(cs, [], depth, path).count == LeafCount(cs)
    decreases EntriesSize(cs), 1
  {
    if cs != [] {
      EntrySizeBound(cs, 0);
      if cs[0].value.Tree? {
        WalkAllAdded(Some(TemplateCacheObj(cs[0].key)), cs[0].value.entries, depth, path + [cs[0].key]);
      }
      MergeAllAdded(cs[1..], depth, path);
    }
  }

  lemma {:induction false} WalkAllAdded<L>(parent: Option<Labelled>, cs: seq<Entry<L>>, depth: nat, path: seq<string>)
    ensures Walk(parent, cs, [], depth, path).count == LeafCount(cs)
    decreases EntriesSize(cs), 2
  {
    MergeAllAdded(cs, depth + 1, path);
  }

  /** Against an empty current map, every leaf of previous is one change. */
  lemma {:induction false} MergeAllRemoved<L>(ps: seq<Entry<L>>, depth: nat, path: seq<string>)
    ensures Merge([], ps, depth, path).count == LeafCount(ps)
    decreases EntriesSize(ps), 1
  {
    if ps != [] {
      EntrySizeBound(ps, 0);
      if ps[0].value.Tree? {
        WalkAllRemoved(Some(TemplateCacheObj(ps[0].key)), ps[0].value.entries, depth, path + [ps[0].key]);
      }
      MergeAllRemoved(ps[1..], depth, path);
    }
  }

  lemma {:induction false} WalkAllRemoved<L>(parent: Option<Labelled>, ps: seq<Entry<L>>, depth: nat, path: seq<string>)
    ensures Walk(parent, [], ps, depth, path).count == LeafCount(ps)
    decreases EntriesSize(ps), 2
  {
    MergeAllRemoved(ps, depth + 1, path);
  }

  lemma {:induction false} LeafCountPositive<L>(es: seq<Entry<L>>)
    requires NoEmptyTrees(es) && es != []
    ensures LeafCount(es) > 0
    decreases EntriesSize(es)
  {
    EntrySizeBound(es, 0);
    if es[0].value.Tree? {
      LeafCountPositive(es[0].value.entries);
    }
  }

  /** With no empty nested map on either side, a walk counts no change
      exactly when the two maps are equal. */
  lemma {:induction false} MergeCountsZeroIffEqual<L>(cs: seq<Entry<L>>, ps: seq<Entry<L>>, depth: nat, path: seq<string>)
    requires NoEmptyTrees(cs) && NoEmptyTrees(ps)
    ensures Merge(cs, ps, depth, path).count == 0 <==> cs == ps
    decreases EntriesSize(cs) + EntriesSize(ps)
  {
    if cs == ps {
      MergeIdentical(cs, depth, path);
    } else if cs != [] && ps != [] {
      EntrySizeBound(cs, 0);
      EntrySizeBound(ps, 0);
      var c, p := cs[0], ps[0];
      CompareZeroIffEqual(c.key, p.key);
      if Compare(c.key, p.key) == 0 {
        if p.value == c.value {
          assert cs == [c] + cs[1..] && ps == [p] + ps[1..];
          MergeCountsZeroIffEqual(cs[1..], ps[1..], depth, path);
        } else if p.value.Tree? && c.value.Tree? {
          MergeCountsZeroIffEqual(c.value.entries, p.value.entries, depth + 1, path + [c.key]);
        }
      }
    } else if cs != [] {
      EntrySizeBound(cs, 0);
      if cs[0].value.Tree? {
        WalkAllAdded(Some(TemplateCacheObj(cs[0].key)), cs[0].value.entries, depth, path + [cs[0].key]);
        LeafCountPositive(cs[0].value.entries);
      }
    } else {
      EntrySizeBound(ps, 0);
      if ps[0].value.Tree? {
        WalkAllRemoved(Some(TemplateCacheObj(ps[0].key)), ps[0].value.entries, depth, path + [ps[0].key]);
        LeafCountPositive(ps[0].value.entries);
      }
    }
  }

  /** Without that condition the walk can miss a change: a nested map that
      was empty when it vanished from previous is walked, finds nothing, and
      leaves no trace. */
  lemma EmptyNestedMapGoesUnnoticed()
    ensures var cs: seq<Entry<int>> := [];
            var ps := [Entry("k", Tree([]))];
            cs != ps && Walk(None, cs, ps, 0, []) == Report(0, [])
  {
    var ps: seq<Entry<int>> := [Entry("k", Tree([]))];
    assert ps[1..] == [];
    var none: seq<Entry<int>> := [];
    assert Walk(Some(TemplateCacheObj("k")), none, none, 1, ["k"]) == Report(0, []);
    assert Merge(none, ps, 1, []) == Combine(Report(0, []), Merge(none, none, 1, []));
  }

  /** The keys of a map. */
  function Keys<L>(es: seq<Entry<L>>): set<string> {
    if es == [] then {} else {es[0].key} + Keys(es[1..])
  }

  /** One turn of the merge loops: what the head entries log. */
  function MergeStep<L(==)>(cs: seq<Entry<L>>, ps: seq<Entry<L>>, depth: nat, path: seq<string>): Report<L>
    requires cs != [] || ps != []
  {
    if cs != [] && ps != [] then
      var c, p := cs[0], ps[0];
      var cmp := Compare(c.key, p.key);
      if cmp < 0 then Report(1, [Added(depth, path + [c.key], c.value)])
      else if cmp > 0 then Report(1, [Removed(depth, path + [p.key], p.value)])
      else if p.value == c.value then Report(0, [])
      else if p.value.Tree? && c.value.Tree? then
        Walk(Some(TemplateCacheObj(c.key)), c.value.entries, p.value.entries, depth, path + [c.key])
      else Report(1, [Removed(depth, path + [p.key], p.value), Added(depth, path + [c.key], c.value)])
    else if cs != [] then
      if cs[0].value.Tree? then Walk(Some(TemplateCacheObj(cs[0].key)), cs[0].value.entries, [], depth, path + [cs[0].key])
      else Report(1, [Added(depth, path + [cs[0].key], cs[0].value)])
    else
      if ps[0].value.Tree? then Walk(Some(TemplateCacheObj(ps[0].key)), [], ps[0].value.entries, depth, path + [ps[0].key])
      else Report(1, [Removed(depth, path + [ps[0].key], ps[0].value)])
  }

  /** One turn of the merge loops: the entries still ahead of the iterators. */
  function MergeRest<L>(cs: seq<Entry<L>>, ps: seq<Entry<L>>): (seq<Entry<L>>, seq<Entry<L>>)
    requires cs != [] || ps != []
  {
    if cs != [] && ps != [] then
      var cmp := Compare(cs[0].key, ps[0].key);
      if cmp < 0 then (cs[1..], ps)
      else if cmp > 0 then (cs, ps[1..])
      else (cs[1..], ps[1..])
    else if cs != [] then (cs[1..], ps)
    else (cs, ps[1..])
  }

  lemma MergeSplit<L>(cs: seq<Entry<L>>, ps: seq<Entry<L>>, depth: nat, path: seq<string>)
    requires cs != [] || ps != []
    ensures Merge(cs, ps, depth, path)
            == Combine(MergeStep(cs, ps, depth, path), Merge(MergeRest(cs, ps).0, MergeRest(cs, ps).1, depth, path))
  {
  }

  lemma MergeRestSmaller<L>(cs: seq<Entry<L>>, ps: seq<Entry<L>>)
    requires cs != [] || ps != []
    ensures EntriesSize(MergeRest(cs, ps).0) + EntriesSize(MergeRest(cs, ps).1) < EntriesSize(cs) + EntriesSize(ps)
    ensures Keys(MergeRest(cs, ps).0) <= Keys(cs) && Keys(MergeRest(cs, ps).1) <= Keys(ps)
  {
  }

  /** Every line lies under the key chain `path` one level down, at one of
      `keys`, at indent `depth` or deeper. */
  ghost predicate LinesUnder<L>(lines: seq<LogLine<L>>, path: seq<string>, keys: set<string>, depth: nat) {
    forall l :: l in lines ==>
      && |l.path| > |path| && l.path[..|path|] == path
      && l.path[|path|] in keys
      && l.depth >= depth
  }

  /** Every line lies under the key chain `path`, at indent `depth` or deeper. */
  ghost predicate LinesWithin<L>(lines: seq<LogLine<L>>, path: seq<string>, depth: nat) {
    forall l :: l in lines ==> |l.path| >= |path| && l.path[..|path|] == path && l.depth >= depth
  }

  lemma LinesUnderAppend<L>(a: seq<LogLine<L>>, b: seq<LogLine<L>>, path: seq<string>,
                            ka: set<string>, kb: set<string>, keys: set<string>, depth: nat)
    requires LinesUnder(a, path, ka, depth) && LinesUnder(b, path, kb, depth)
    requires ka <= keys && kb <= keys
    ensures LinesUnder(a + b, path, keys, depth)
  {
  }

  lemma SubWalkUnder<L>(lines: seq<LogLine<L>>, path: seq<string>, k: string, depth: nat)
    requires LinesWithin(lines, path + [k], depth)
    ensures LinesUnder(lines, path, {k}, depth)
  {
    forall l | l in lines
      ensures |l.path| > |path| && l.path[..|path|] == path && l.path[|path|] == k
    {
      assert l.path[..|path| + 1] == path + [k];
      assert l.path[..|path|] == (path + [k])[..|path|];
      assert l.path[|path|] == (path + [k])[|path|];
    }
  }

  /** One step of a merge: the lines at the key of its head entries. */
  lemma {:induction false} StepUnder<L>(cs: seq<Entry<L>>, ps: seq<Entry<L>>, depth: nat, path: seq<string>)
    requires cs != [] || ps != []
    ensures
      var k := if cs != [] && (ps == [] || Compare(cs[0].key, ps[0].key) <= 0) then cs[0].key else ps[0].key;
      LinesUnder(MergeStep(cs, ps, depth, path).lines, path, {k}, depth)
    decreases EntriesSize(cs) + EntriesSize(ps), 1
  {
    if cs != [] {
      EntrySizeBound(cs, 0);
    }
    if ps != [] {
      EntrySizeBound(ps, 0);
    }
    if cs != [] && ps != [] {
      var c, p := cs[0], ps[0];
      CompareZeroIffEqual(c.key, p.key);
      if Compare(c.key, p.key) == 0 && p.value != c.value && p.value.Tree? && c.value.Tree? {
        WalkPaths(Some(TemplateCacheObj(c.key)), c.value.entries, p.value.entries, depth, path + [c.key]);
        SubWalkUnder(MergeStep(cs, ps, depth, path).lines, path, c.key, depth);
      }
    } else if cs != [] {
      if cs[0].value.Tree? {
        WalkPaths(Some(TemplateCacheObj(cs[0].key)), cs[0].value.entries, [], depth, path + [cs[0].key]);
        SubWalkUnder(MergeStep(cs, ps, depth, path).lines, path, cs[0].key, depth);
      }
    } else {
      if ps[0].value.Tree? {
        WalkPaths(Some(TemplateCacheObj(ps[0].key)), [], ps[0].value.entries, depth, path + [ps[0].key]);
        SubWalkUnder(MergeStep(cs, ps, depth, path).lines, path, ps[0].key, depth);
      }
    }
  }

  /** Every line a merge logs lies under its key chain, one level down, at a
      key of one of the two maps, and at its indent or deeper. */
  lemma {:induction false} MergePaths<L>(cs: seq<Entry<L>>, ps: seq<Entry<L>>, depth: nat, path: seq<string>)
    ensures LinesUnder(Merge(cs, ps, depth, path).lines, path, Keys(cs) + Keys(ps), depth)
    decreases EntriesSize(cs) + EntriesSize(ps), 2
  {
    if cs != [] || ps != [] {
      StepUnder(cs, ps, depth, path);
      var (cs', ps') := MergeRest(cs, ps);
      MergeSplit(cs, ps, depth, path);
      MergeRestSmaller(cs, ps);
      MergePaths(cs', ps', depth, path);
      var k := if cs != [] && (ps == [] || Compare(cs[0].key, ps[0].key) <= 0) then cs[0].key else ps[0].key;
      LinesUnderAppend(MergeStep(cs, ps, depth, path).lines, Merge(cs', ps', depth, path).lines, path,
                       {k}, Keys(cs') + Keys(ps'), Keys(cs) + Keys(ps), depth);
    }
  }

  lemma {:induction false} WalkPaths<L>(parent: Option<Labelled>, cs: seq<Entry<L>>, ps: seq<Entry<L>>, depth: nat, path: seq<string>)
    ensures LinesWithin(Walk(parent, cs, ps, depth, path).lines, path, depth)
    decreases EntriesSize(cs) + EntriesSize(ps), 3
  {
    MergePaths(cs, ps, depth + 1, path);
  }

  /** The lines' keys at level n never go down. */
  ghost predicate Ascending<L>(lines: seq<LogLine<L>>, n: nat) {
    forall i, j :: 0 <= i < j < |lines| && n < |lines[i].path| && n < |lines[j].path| ==>
      !Less(lines[j].path[n], lines[i].path[n])
  }

  lemma {:induction false} SortedTail<L>(es: seq<Entry<L>>)
    requires Sorted(es) && es != []
    ensures Sorted(es[1..])
    ensures forall x :: x in Keys(es[1..]) ==> Less(es[0].key, x)
    decreases |es|
  {
    if |es| > 1 {
      SortedTail(es[1..]);
      assert es[1..][1..] == es[2..];
      forall x | x in Keys(es[2..])
        ensures Less(es[0].key, x)
      {
        LessTransitive(es[0].key, es[1].key, x);
      }
    }
  }

  /** In sorted maps, the entries still ahead after one turn all have keys
      above the key that turn logged. */
  lemma RestAbove<L>(cs: seq<Entry<L>>, ps: seq<Entry<L>>)
    requires Sorted(cs) && Sorted(ps) && (cs != [] || ps != [])
    ensures var k := if cs != [] && (ps == [] || Compare(cs[0].key, ps[0].key) <= 0) then cs[0].key else ps[0].key;
      && Sorted(MergeRest(cs, ps).0) && Sorted(MergeRest(cs, ps).1)
      && forall x :: x in Keys(MergeRest(cs, ps).0) + Keys(MergeRest(cs, ps).1) ==> Less(k, x)
  {
    if cs != [] {
      SortedTail(cs);
    }
    if ps != [] {
      SortedTail(ps);
    }
    if cs != [] && ps != [] {
      var c, p := cs[0].key, ps[0].key;
      CompareZeroIffEqual(c, p);
      CompareAntisymmetric(c, p);
      var cmp := Compare(c, p);
      if cmp < 0 {
        forall x | x in Keys(ps[1..])
          ensures Less(c, x)
        {
          LessTransitive(c, p, x);
        }
      } else if cmp > 0 {
        forall x | x in Keys(cs[1..])
          ensures Less(p, x)
        {
          LessTransitive(p, c, x);
        }
      }
    }
  }

  lemma AscendingAppend<L>(a: seq<LogLine<L>>, b: seq<LogLine<L>>, n: nat, k: string, above: set<string>)
    requires forall l :: l in a ==> n < |l.path| && l.path[n] == k
    requires forall l :: l in b ==> n < |l.path| && l.path[n] in above
    requires forall x :: x in above ==> Less(k, x)
    requires Ascending(b, n)
    ensures Ascending(a + b, n)
  {
    Trichotomy(k, k);
    forall i, j | 0 <= i < j < |a + b|
      ensures !Less((a + b)[j].path[n], (a + b)[i].path[n])
    {
      if j < |a| {
        assert a[i] in a && a[j] in a;
      } else if i < |a| {
        assert a[i] in a && b[j - |a|] in b;
        Trichotomy(k, (a + b)[j].path[n]);
      } else {
        assert (a + b)[i] == b[i - |a|] && (a + b)[j] == b[j - |a|];
      }
    }
  }

  /** Over sorted maps the log follows ascending key order: at the merge's
      level, a line's key is never below the key of an earlier line. */
  lemma {:induction false} MergeAscending<L>(cs: seq<Entry<L>>, ps: seq<Entry<L>>, depth: nat, path: seq<string>)
    requires Sorted(cs) && Sorted(ps)
    ensures Ascending(Merge(cs, ps, depth, path).lines, |path|)
    decreases EntriesSize(cs) + EntriesSize(ps)
  {
    if cs != [] || ps != [] {
      var k := if cs != [] && (ps == [] || Compare(cs[0].key, ps[0].key) <= 0) then cs[0].key else ps[0].key;
      var (cs', ps') := MergeRest(cs, ps);
      StepUnder(cs, ps, depth, path);
      MergeSplit(cs, ps, depth, path);
      MergeRestSmaller(cs, ps);
      RestAbove(cs, ps);
      MergePaths(cs', ps', depth, path);
      MergeAscending(cs', ps', depth, path);
      AscendingAppend(MergeStep(cs, ps, depth, path).lines, Merge(cs', ps', depth, path).lines, |path|, k, Keys(cs') + Keys(ps'));
    }
  }

  lemma {:induction false} KeysMember<L>(es: seq<Entry<L>>, x: Entry<L>)
    requires x in es
    ensures x.key in Keys(es)
    decreases |es|
  {
    if x != es[0] {
      KeysMember(es[1..], x);
    }
  }

  /** An entry of a sorted map is either its first entry or lies after it,
      under a greater key. */
  lemma SortedMember<L>(es: seq<Entry<L>>, x: Entry<L>)
    requires Sorted(es) && x in es
    ensures (x == es[0] && x !in es[1..]) || (x != es[0] && x in es[1..] && Less(es[0].key, x.key))
  {
    SortedTail(es);
    Trichotomy(es[0].key, es[0].key);
    if x in es[1..] {
      KeysMember(es[1..], x);
    } else {
      assert es == [es[0]] + es[1..];
    }
  }

  lemma LessChain(a: string, b: string, c: string)
    ensures Less(a, b) && Less(b, c) ==> Less(a, c)
    ensures Less(a, b) ==> !Less(b, a) && a != b
  {
    if Less(a, b) && Less(b, c) {
      LessTransitive(a, b, c);
    }
    Trichotomy(a, b);
  }

  /** An entry under a key that previous lacks is logged as added: whole,
      as one "+" line, or, for a nested map met once previous is exhausted,
      by walking it against nothing, every line of which is in the log. */
  lemma {:induction false} AddedWhenOnlyInCurrent<L>(cs: seq<Entry<L>>, ps: seq<Entry<L>>, depth: nat, path: seq<string>, e: Entry<L>)
    requires e in cs && e.key !in Keys(ps)
    ensures || Added(depth, path + [e.key], e.value) in Merge(cs, ps, depth, path).lines
            || (e.value.Tree? &&
                forall l :: l in Walk(Some(TemplateCacheObj(e.key)), e.value.entries, [], depth, path + [e.key]).lines ==>
                  l in Merge(cs, ps, depth, path).lines)
    ensures e.value.Leaf? ==> Added(depth, path + [e.key], e.value) in Merge(cs, ps, depth, path).lines
    decreases EntriesSize(cs) + EntriesSize(ps)
  {
    MergeSplit(cs, ps, depth, path);
    MergeRestSmaller(cs, ps);
    var (cs', ps') := MergeRest(cs, ps);
    if e in cs' {
      AddedWhenOnlyInCurrent(cs', ps', depth, path, e);
    } else {
      assert e == cs[0];
      if ps != [] {
        KeysMember(ps, ps[0]);
        CompareZeroIffEqual(e.key, ps[0].key);
      }
    }
  }

  /** An entry under a key that current lacks is logged as removed: whole,
      as one "-" line, or, for a nested map met once current is exhausted,
      by walking it against nothing, every line of which is in the log. */
  lemma {:induction false} RemovedWhenOnlyInPrevious<L>(cs: seq<Entry<L>>, ps: seq<Entry<L>>, depth: nat, path: seq<string>, e: Entry<L>)
    requires e in ps && e.key !in Keys(cs)
    ensures || Removed(depth, path + [e.key], e.value) in Merge(cs, ps, depth, path).lines
            || (e.value.Tree? &&
                forall l :: l in Walk(Some(TemplateCacheObj(e.key)), [], e.value.entries, depth, path + [e.key]).lines ==>
                  l in Merge(cs, ps, depth, path).lines)
    ensures e.value.Leaf? ==> Removed(depth, path + [e.key], e.value) in Merge(cs, ps, depth, path).lines
    decreases EntriesSize(cs) + EntriesSize(ps)
  {
    MergeSplit(cs, ps, depth, path);
    MergeRestSmaller(cs, ps);
    var (cs', ps') := MergeRest(cs, ps);
    if e in ps' {
      RemovedWhenOnlyInPrevious(cs', ps', depth, path, e);
    } else {
      assert e == ps[0];
      if cs != [] {
        KeysMember(cs, cs[0]);
        CompareZeroIffEqual(cs[0].key, e.key);
      }
    }
  }

  /** In sorted maps, a key whose value differs on the two sides, and is not
      a nested map on both, is logged as the old value removed and the new
      one added. */
  lemma {:induction false} ReplacedWhenValuesDiffer<L>(cs: seq<Entry<L>>, ps: seq<Entry<L>>, depth: nat, path: seq<string>,
                                                       e: Entry<L>, f: Entry<L>)
    requires Sorted(cs) && Sorted(ps) && e in cs && f in ps
    requires e.key == f.key && e.value != f.value && !(e.value.Tree? && f.value.Tree?)
    ensures Removed(depth, path + [f.key], f.value) in Merge(cs, ps, depth, path).lines
    ensures Added(depth, path + [e.key], e.value) in Merge(cs, ps, depth, path).lines
    decreases EntriesSize(cs) + EntriesSize(ps)
  {
    MergeSplit(cs, ps, depth, path);
    MergeRestSmaller(cs, ps);
    RestAbove(cs, ps);
    var (cs', ps') := MergeRest(cs, ps);
    if e in cs' && f in ps' {
      ReplacedWhenValuesDiffer(cs', ps', depth, path, e, f);
    } else {
      SortedMember(cs, e);
      SortedMember(ps, f);
      CompareZeroIffEqual(cs[0].key, ps[0].key);
      CompareAntisymmetric(cs[0].key, ps[0].key);
      LessChain(cs[0].key, ps[0].key, f.key);
      LessChain(ps[0].key, cs[0].key, e.key);
      LessChain(e.key, e.key, e.key);
      assert e == cs[0] && f == ps[0];
    }
  }

  /** In sorted maps, a key whose value is the same on both sides logs no
      line. */
  lemma {:induction false} NothingLoggedWhenValuesEqual<L>(cs: seq<Entry<L>>, ps: seq<Entry<L>>, depth: nat, path: seq<string>,
                                                           e: Entry<L>, f: Entry<L>)
    requires Sorted(cs) && Sorted(ps) && e in cs && f in ps
    requires e.key == f.key && e.value == f.value
    ensures forall l :: l in Merge(cs, ps, depth, path).lines ==> !(|path| < |l.path| && l.path[|path|] == e.key)
    decreases EntriesSize(cs) + EntriesSize(ps)
  {
    var k := if cs != [] && (ps == [] || Compare(cs[0].key, ps[0].key) <= 0) then cs[0].key else ps[0].key;
    MergeSplit(cs, ps, depth, path);
    MergeRestSmaller(cs, ps);
    RestAbove(cs, ps);
    StepUnder(cs, ps, depth, path);
    var (cs', ps') := MergeRest(cs, ps);
    MergePaths(cs', ps', depth, path);
    SortedMember(cs, e);
    SortedMember(ps, f);
    CompareZeroIffEqual(cs[0].key, ps[0].key);
    CompareAntisymmetric(cs[0].key, ps[0].key);
    LessChain(cs[0].key, ps[0].key, f.key);
    LessChain(ps[0].key, cs[0].key, e.key);
    LessChain(e.key, e.key, e.key);
    if e in cs' && f in ps' {
      NothingLoggedWhenValuesEqual(cs', ps', depth, path, e, f);
      assert k != e.key;
    } else {
      assert e == cs[0] && f == ps[0];
      assert MergeStep(cs, ps, depth, path).lines == [];
      LessChain(k, e.key, e.key);
    }
    var lines := Merge(cs, ps, depth, path).lines;
    forall l | l in lines
      ensures !(|path| < |l.path| && l.path[|path|] == e.key)
    {
      var step := MergeStep(cs, ps, depth, path).lines;
      if l in step {
        assert l.path[|path|] == k;
      } else {
        assert l in Merge(cs', ps', depth, path).lines;
        LessChain(k, l.path[|path|], l.path[|path|]);
      }
    }
  }

  /** The trailer is the walk's last line, at the walk's own indent, exactly
      when a change was counted and there is a parent; it names the count
      and the parent. */
  lemma WalkTrailer<L>(parent: Option<Labelled>, cs: seq<Entry<L>>, ps: seq<Entry<L>>, depth: nat, path: seq<string>)
    ensures var r := Walk(parent, cs, ps, depth, path);
      (r.count > 0 && parent.Some?) <==> (r.lines != [] && r.lines[|r.lines| - 1].Trailer? && r.lines[|r.lines| - 1].depth == depth)
    ensures var r := Walk(parent, cs, ps, depth, path);
      r.count > 0 && parent.Some? ==> r.lines[|r.lines| - 1] == Trailer(depth, path, TrailerText(r.count, GetLabel(parent.value)))
  {
    var m := Merge(cs, ps, depth + 1, path);
    MergePaths(cs, ps, depth + 1, path);
    assert LinesUnder(m.lines, path, Keys(cs) + Keys(ps), depth + 1);
    if m.lines != [] {
      assert m.lines[|m.lines| - 1] in m.lines;
    }
  }

  /** Where the two iterators stand before the first loop: the entries c
      and p (None for null) and how many entries each iterator has handed
      out. */
  datatype Cursor<L> = Cursor(c: Option<Entry<L>>, p: Option<Entry<L>>, cTaken: nat, pTaken: nat)

  /** The start of logChanges as written: p is drawn from the iterator over
      current. None stands for the NoSuchElementException that next() throws
      when current has no second entry. */
  function StartAsWritten<L>(cs: seq<Entry<L>>, ps: seq<Entry<L>>): (r: Option<Cursor<L>>)
    ensures r.None? <==> ps != [] && |cs| < 2
    ensures r.Some? && ps != [] ==> r.value.p == Some(cs[1]) && r.value.pTaken == 0
  {
    var c := if cs != [] then Some(cs[0]) else None;
    var cTaken := if cs != [] then 1 else 0;
    if ps == [] then Some(Cursor(c, None, cTaken, 0))
    else if cTaken < |cs| then Some(Cursor(c, Some(cs[cTaken]), cTaken + 1, 0))
    else None
  }

  /** A module cache with one namespace, compared against an unchanged
      snapshot of itself: as written the walk throws (and the debugger's
      run loop stops on NoSuchElementException), while the corrected walk
      (Walk, whose first turn compares the first entries of both sides)
      reports no change. */
  lemma UnchangedSingleEntryThrowsAsWritten(namespace: string, template: string, x: int)
    ensures var es := [Entry(namespace, Tree([Entry(template, Leaf(x))]))];
      && StartAsWritten(es, es).None?
      && Walk(Some(NamespaceCacheObj("m")), es, es, 0, []) == Report(0, [])
  {
    WalkIdentical(Some(NamespaceCacheObj("m")), [Entry(namespace, Tree([Entry(template, Leaf(x))]))], 0, []);
  }

  /** With two or more entries the start as written does not throw, but it
      pairs current's first entry with current's second: the first
      comparison sees c's key before p's, so the first turn logs c as added
      although nothing changed. The corrected walk logs nothing. */
  lemma UnchangedSnapshotMisalignedAsWritten<L>(es: seq<Entry<L>>, depth: nat, path: seq<string>)
    requires Sorted(es) && |es| >= 2
    ensures StartAsWritten(es, es).Some?
    ensures var cur := StartAsWritten(es, es).value;
      && cur.c == Some(es[0]) && cur.p == Some(es[1])
      && Compare(cur.c.value.key, cur.p.value.key) < 0
    ensures Merge(es, es, depth, path) == Report(0, [])
  {
    assert Less(es[0].key, es[1].key);
    MergeIdentical(es, depth, path);
  }

  lemma CombineAssociative<L>(a: Report<L>, b: Report<L>, c: Report<L>)
    ensures Combine(a, Combine(b, c)) == Combine(Combine(a, b), c)
  {
    assert a.lines + (b.lines + c.lines) == (a.lines + b.lines) + c.lines;
  }

  /** One turn of the first loop, on positions i and j. */
  lemma BothTurn<L>(current: seq<Entry<L>>, previous: seq<Entry<L>>, i: nat, j: nat, depth: nat, path: seq<string>)
    requires i < |current| && j < |previous|
    ensures var c, p := current[i], previous[j];
      var cmp := Compare(c.key, p.key);
      Merge(current[i..], previous[j..], depth, path) ==
        if cmp < 0 then
          Combine(Report(1, [Added(depth, path + [c.key], c.value)]), Merge(current[i + 1..], previous[j..], depth, path))
        else if cmp > 0 then
          Combine(Report(1, [Removed(depth, path + [p.key], p.value)]), Merge(current[i..], previous[j + 1..], depth, path))
        else
          Combine(
            if p.value == c.value then Report(0, [])
            else if p.value.Tree? && c.value.Tree? then
              Walk(Some(TemplateCacheObj(c.key)), c.value.entries, p.value.entries, depth, path + [c.key])
            else Report(1, [Removed(depth, path + [p.key], p.value), Added(depth, path + [c.key], c.value)]),
            Merge(current[i + 1..], previous[j + 1..], depth, path))
  {
    var cs, ps := current[i..], previous[j..];
    assert cs[0] == current[i] && ps[0] == previous[j];
    assert cs[1..] == current[i + 1..] && ps[1..] == previous[j + 1..];
    MergeSplit(cs, ps, depth, path);
  }

  /** One turn of the second loop, on position k of current. */
  lemma CurrentTurn<L>(current: seq<Entry<L>>, k: nat, depth: nat, path: seq<string>)
    requires k < |current|
    ensures var c := current[k];
      Merge(current[k..], [], depth, path) ==
        Combine(
          if c.value.Tree? then Walk(Some(TemplateCacheObj(c.key)), c.value.entries, [], depth, path + [c.key])
          else Report(1, [Added(depth, path + [c.key], c.value)]),
          Merge(current[k + 1..], [], depth, path))
  {
    var cs := current[k..];
    var none: seq<Entry<L>> := [];
    assert cs[0] == current[k] && cs[1..] == current[k + 1..];
    MergeSplit(cs, none, depth, path);
  }

  /** One turn of the third loop, on position k of previous. */
  lemma PreviousTurn<L>(previous: seq<Entry<L>>, k: nat, depth: nat, path: seq<string>)
    requires k < |previous|
    ensures var p := previous[k];
      Merge([], previous[k..], depth, path) ==
        Combine(
          if p.value.Tree? then Walk(Some(TemplateCacheObj(p.key)), [], p.value.entries, depth, path + [p.key])
          else Report(1, [Removed(depth, path + [p.key], p.value)]),
          Merge([], previous[k + 1..], depth, path))
  {
    var ps := previous[k..];
    var none: seq<Entry<L>> := [];
    assert ps[0] == previous[k] && ps[1..] == previous[k + 1..];
    MergeSplit(none, ps, depth, path);
  }

  /** The first loop of logChanges: while both iterators have an entry,
      log the smaller key, or compare the values under a shared key. The
      iterators stand at positions i and j; an iterator's entry is null once
      its position reaches the end. The log is the list of lines written. */
  method MergeBoth<L(==)>(current: seq<Entry<L>>, previous: seq<Entry<L>>, depth: nat, path: seq<string>)
    returns (r: Report<L>, i: nat, j: nat)
    ensures i <= |current| && j <= |previous| && (i == |current| || j == |previous|)
    ensures Merge(current, previous, depth, path) == Combine(r, Merge(current[i..], previous[j..], depth, path))
    decreases EntriesSize(current) + EntriesSize(previous), 1
  {
    var changeCount: nat := 0;
    var log: seq<LogLine<L>> := [];
    i, j := 0, 0;
    assert current[i..] == current && previous[j..] == previous;
    while i < |current| && j < |previous|
      invariant 0 <= i <= |current| && 0 <= j <= |previous|
      invariant Merge(current, previous, depth, path)
                == Combine(Report(changeCount, log), Merge(current[i..], previous[j..], depth, path))
      decreases |current| - i + |previous| - j
    {
      var c, p := current[i], previous[j];
      BothTurn(current, previous, i, j, depth, path);
      ghost var i0, j0 := i, j;
      var cmp := Compare(c.key, p.key);
      var step: Report<L>;
      if cmp < 0 {
        step := Report(1, [Added(depth, path + [c.key], c.value)]);
        i := i + 1;
      } else if cmp > 0 {
        step := Report(1, [Removed(depth, path + [p.key], p.value)]);
        j := j + 1;
      } else {
        if p.value == c.value {
          step := Report(0, []);
        } else if p.value.Tree? && c.value.Tree? {
          EntrySizeBound(current, i);
          EntrySizeBound(previous, j);
          step := LogChanges(Some(TemplateCacheObj(c.key)), c.value.entries, p.value.entries, depth, path + [c.key]);
        } else {
          step := Report(1, [Removed(depth, path + [p.key], p.value), Added(depth, path + [c.key], c.value)]);
        }
        i, j := i + 1, j + 1;
      }
      assert Merge(current[i0..], previous[j0..], depth, path) == Combine(step, Merge(current[i..], previous[j..], depth, path));
      CombineAssociative(Report(changeCount, log), step, Merge(current[i..], previous[j..], depth, path));
      changeCount, log := changeCount + step.count, log + step.lines;
    }
    r := Report(changeCount, log);
  }

  /** The second loop of logChanges: the entries current still holds from
      position i on, once previous is exhausted. A nested map is walked
      against nothing; a leaf is logged as added. */
  method DrainCurrent<L(==)>(current: seq<Entry<L>>, i: nat, depth: nat, path: seq<string>) returns (r: Report<L>)
    requires i <= |current|
    ensures r == Merge(current[i..], [], depth, path)
    decreases EntriesSize(current), 1
  {
    var changeCount: nat := 0;
    var log: seq<LogLine<L>> := [];
    var k := i;
    var none: seq<Entry<L>> := [];
    while k < |current|
      invariant i <= k <= |current|
      invariant Merge(current[i..], none, depth, path)
                == Combine(Report(changeCount, log), Merge(current[k..], none, depth, path))
      decreases |current| - k
    {
      var c := current[k];
      CurrentTurn(current, k, depth, path);
      var step: Report<L>;
      if c.value.Tree? {
        EntrySizeBound(current, k);
        step := LogChanges(Some(TemplateCacheObj(c.key)), c.value.entries, none, depth, path + [c.key]);
      } else {
        step := Report(1, [Added(depth, path + [c.key], c.value)]);
      }
      k := k + 1;
      CombineAssociative(Report(changeCount, log), step, Merge(current[k..], none, depth, path));
      changeCount, log := changeCount + step.count, log + step.lines;
    }
    assert current[k..] == [];
    r := Report(changeCount, log);
  }

  /** The third loop of logChanges: the entries previous still holds from
      position j on, once current is exhausted. A nested map is walked
      against nothing; a leaf is logged as removed. */
  method DrainPrevious<L(==)>(previous: seq<Entry<L>>, j: nat, depth: nat, path: seq<string>) returns (r: Report<L>)
    requires j <= |previous|
    ensures r == Merge([], previous[j..], depth, path)
    decreases EntriesSize(previous), 1
  {
    var changeCount: nat := 0;
    var log: seq<LogLine<L>> := [];
    var k := j;
    var none: seq<Entry<L>> := [];
    while k < |previous|
      invariant j <= k <= |previous|
      invariant Merge(none, previous[j..], depth, path)
                == Combine(Report(changeCount, log), Merge(none, previous[k..], depth, path))
      decreases |previous| - k
    {
      var p := previous[k];
      PreviousTurn(previous, k, depth, path);
      var step: Report<L>;
      if p.value.Tree? {
        EntrySizeBound(previous, k);
        step := LogChanges(Some(TemplateCacheObj(p.key)), none, p.value.entries, depth, path + [p.key]);
      } else {
        step := Report(1, [Removed(depth, path + [p.key], p.value)]);
      }
      k := k + 1;
      CombineAssociative(Report(changeCount, log), step, Merge(none, previous[k..], depth, path));
      changeCount, log := changeCount + step.count, log + step.lines;
    }
    assert previous[k..] == [];
    r := Report(changeCount, log);
  }

  /** logChanges(parent, current, previous, log, indent): its three loops at
      the next indent, then the trailer when something changed and there is
      a parent to name. */
  method LogChanges<L(==)>(parent: Option<Labelled>, current: seq<Entry<L>>, previous: seq<Entry<L>>,
                           depth: nat, path: seq<string>) returns (r: Report<L>)
    ensures r == Walk(parent, current, previous, depth, path)
    decreases EntriesSize(current) + EntriesSize(previous), 2
  {
    var nextDepth := depth + 1;
    var both, i, j := MergeBoth(current, previous, nextDepth, path);
    var added := DrainCurrent(current, i, nextDepth, path);
    var removed := DrainPrevious(previous, j, nextDepth, path);
    var none: seq<Entry<L>> := [];
    if i == |current| {
      assert current[i..] == none;
      assert added == Report(0, []);
      assert Merge(current[i..], previous[j..], nextDepth, path) == removed;
    } else {
      assert previous[j..] == none;
      assert removed == Report(0, []);
      assert Merge(current[i..], previous[j..], nextDepth, path) == added;
    }
    var changeCount := both.count + added.count + removed.count;
    var log := both.lines + added.lines + removed.lines;
    assert Merge(current, previous, nextDepth, path) == Report(changeCount, log);
    if changeCount > 0 && parent.Some? {
      log := log + [Trailer(depth, path, TrailerText(changeCount, GetLabel(parent.value)))];
    }
    r := Report(changeCount, log);
  }
}
