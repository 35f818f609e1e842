/** The directive pass of SoyCacheUpdater.updateCacheImpl: the regular
    expression yields (command, operand) matches in document order, and the
    loop folds them into the file's namespace, delegate package, templates
    and delegate templates. */
module Directives {
  import opened Wrappers

  /** Placeholders for "this file declares no namespace / no delegate
      package". Their real values are declared in NamespaceCache and
      DelegatePackageCache, which are not part of this model; the fold does
      not depend on them, because it tracks "not yet set" with a flag. */
  const DEFAULT_NAMESPACE: string := "<default namespace>"
  const DEFAULT_DELEGATE: string := "<default delegate>"

  /** One regular-expression match: group(1), the command word exactly as it
      appears in the file, and group(2), its operand. */
  datatype Match = Match(command: string, operand: string)

  /** Which branch of the fold a match takes. The comparisons are
      case-sensitive, so only the exact lower-case spellings are singled out. */
  datatype Kind = DelPackageKind | NamespaceKind | DelTemplateKind | TemplateKind

  function KindOf(command: string): Kind {
    if command == "delpackage" then DelPackageKind
    else if command == "namespace" then NamespaceKind
    else if command == "deltemplate" then DelTemplateKind
    else TemplateKind
  }

  /** What the pass extracts from one file. */
  datatype Directives = Directives(
    namespace: string,
    delegate: string,
    templates: seq<string>,
    deltemplates: seq<string>)

  /** The operand of the first match of kind k, if there is one. */
  function FirstOperand(ms: seq<Match>, k: Kind): Option<string> {
    if ms == [] then None
    else if KindOf(ms[0].command) == k then Some(ms[0].operand)
    else FirstOperand(ms[1..], k)
  }

  /** There is no first operand exactly when no match has kind k; otherwise
      it is the operand of a match of kind k with none of that kind before
      it. */
  lemma {:induction false} FirstOperandIsFirst(ms: seq<Match>, k: Kind)
    ensures FirstOperand(ms, k).None? <==> forall i :: 0 <= i < |ms| ==> KindOf(ms[i].command) != k
    ensures FirstOperand(ms, k).Some? ==>
      exists i :: 0 <= i < |ms| && KindOf(ms[i].command) == k && FirstOperand(ms, k).value == ms[i].operand &&
                  forall j :: 0 <= j < i ==> KindOf(ms[j].command) != k
  {
    if ms != [] && KindOf(ms[0].command) != k {
      var r := FirstOperand(ms[1..], k);
      FirstOperandIsFirst(ms[1..], k);
      assert forall i :: 1 <= i < |ms| ==> ms[i] == ms[1..][i - 1];
      if r.Some? {
        var i :| 0 <= i < |ms[1..]| && KindOf(ms[1..][i].command) == k && r.value == ms[1..][i].operand &&
                 forall j :: 0 <= j < i ==> KindOf(ms[1..][j].command) != k;
        assert KindOf(ms[i + 1].command) == k && forall j :: 0 <= j < i + 1 ==> KindOf(ms[j].command) != k;
      }
    }
  }

  /** The operands of the matches of kind k, in match order, duplicates kept. */
  function Operands(ms: seq<Match>, k: Kind): seq<string> {
    if ms == [] then []
    else (if KindOf(ms[0].command) == k then [ms[0].operand] else []) + Operands(ms[1..], k)
  }

  /** What the fold computes from the matches of a file. */
  function Extract(ms: seq<Match>): Directives {
    Directives(
      FirstOperand(ms, NamespaceKind).GetOr(DEFAULT_NAMESPACE),
      FirstOperand(ms, DelPackageKind).GetOr(DEFAULT_DELEGATE),
      Operands(ms, TemplateKind),
      Operands(ms, DelTemplateKind))
  }

  /** The matches of a document; a document the host cannot supply has none. */
  function MatchesOf(document: Option<seq<Match>>): seq<Match> {
    if document.Some? then document.value else []
  }

  lemma {:induction false} FirstOperandSnoc(ms: seq<Match>, m: Match, k: Kind)
    ensures FirstOperand(ms + [m], k) ==
            if FirstOperand(ms, k).Some? then FirstOperand(ms, k)
            else if KindOf(m.command) == k then Some(m.operand) else None
  {
    if ms != [] {
      assert (ms + [m])[1..] == ms[1..] + [m];
      FirstOperandSnoc(ms[1..], m, k);
    }
  }

  /** Operands distributes over concatenation: the operands of a longer match
      sequence are those of its parts, in the same order. */
  lemma {:induction false} OperandsAppend(ms1: seq<Match>, ms2: seq<Match>, k: Kind)
    ensures Operands(ms1 + ms2, k) == Operands(ms1, k) + Operands(ms2, k)
  {
    if ms1 == [] {
      assert ms1 + ms2 == ms2;
    } else {
      assert (ms1 + ms2)[1..] == ms1[1..] + ms2;
      OperandsAppend(ms1[1..], ms2, k);
    }
  }

  /** An operand is collected exactly when some match of that kind carries it. */
  lemma {:induction false} OperandsMembership(ms: seq<Match>, k: Kind, x: string)
    ensures x in Operands(ms, k) <==> exists i :: 0 <= i < |ms| && KindOf(ms[i].command) == k && ms[i].operand == x
  {
    if ms != [] {
      OperandsMembership(ms[1..], k, x);
      assert forall i :: 1 <= i < |ms| ==> ms[i] == ms[1..][i - 1];
      if exists i :: 0 <= i < |ms| && KindOf(ms[i].command) == k && ms[i].operand == x {
        var i :| 0 <= i < |ms| && KindOf(ms[i].command) == k && ms[i].operand == x;
        if i > 0 {
          assert ms[1..][i - 1] == ms[i];
        }
      }
    }
  }

  /** First wins: once a namespace (or delegate package) has been seen, the
      matches that follow do not change it. */
  lemma {:induction false} LaterMatchesKeepNamespace(ms: seq<Match>, rest: seq<Match>)
    requires exists i :: 0 <= i < |ms| && KindOf(ms[i].command) == NamespaceKind
    ensures Extract(ms + rest).namespace == Extract(ms).namespace
    decreases |ms|
  {
    if KindOf(ms[0].command) != NamespaceKind {
      assert (ms + rest)[1..] == ms[1..] + rest;
      assert exists i :: 0 <= i < |ms[1..]| && KindOf(ms[1..][i].command) == NamespaceKind by {
        var i :| 0 <= i < |ms| && KindOf(ms[i].command) == NamespaceKind;
        assert i > 0 && ms[1..][i - 1] == ms[i];
      }
      LaterMatchesKeepNamespace(ms[1..], rest);
    }
  }

  lemma {:induction false} LaterMatchesKeepDelegate(ms: seq<Match>, rest: seq<Match>)
    requires exists i :: 0 <= i < |ms| && KindOf(ms[i].command) == DelPackageKind
    ensures Extract(ms + rest).delegate == Extract(ms).delegate
    decreases |ms|
  {
    if KindOf(ms[0].command) != DelPackageKind {
      assert (ms + rest)[1..] == ms[1..] + rest;
      assert exists i :: 0 <= i < |ms[1..]| && KindOf(ms[1..][i].command) == DelPackageKind by {
        var i :| 0 <= i < |ms| && KindOf(ms[i].command) == DelPackageKind;
        assert i > 0 && ms[1..][i - 1] == ms[i];
      }
      LaterMatchesKeepDelegate(ms[1..], rest);
    }
  }

  /** One more match changes the extracted directives exactly as one turn of
      the loop does. */
  lemma ExtractSnoc(ms: seq<Match>, m: Match)
    ensures Extract(ms + [m]) ==
            var d := Extract(ms);
            match KindOf(m.command)
            case DelPackageKind =>
              if FirstOperand(ms, DelPackageKind).Some? then d else d.(delegate := m.operand)
            case NamespaceKind =>
              if FirstOperand(ms, NamespaceKind).Some? then d else d.(namespace := m.operand)
            case DelTemplateKind => d.(deltemplates := d.deltemplates + [m.operand])
            case TemplateKind => d.(templates := d.templates + [m.operand])
  {
    FirstOperandSnoc(ms, m, NamespaceKind);
    FirstOperandSnoc(ms, m, DelPackageKind);
    OperandsAppend(ms, [m], TemplateKind);
    OperandsAppend(ms, [m], DelTemplateKind);
    assert Operands([m], TemplateKind) == (if KindOf(m.command) == TemplateKind then [m.operand] else []) + [];
    assert Operands([m], DelTemplateKind) == (if KindOf(m.command) == DelTemplateKind then [m.operand] else []) + [];
  }

  /** The comparison is case-sensitive while the pattern is not: an upper-case
      namespace command is filed as a template and sets no namespace. */
  lemma UpperCaseNamespaceIsTemplate(x: string)
    ensures Extract([Match("NAMESPACE", x)]) == Directives(DEFAULT_NAMESPACE, DEFAULT_DELEGATE, [x], [])
  {
    var ms := [Match("NAMESPACE", x)];
    assert "NAMESPACE"[0] != "namespace"[0];
    assert KindOf("NAMESPACE") == TemplateKind;
    assert ms[1..] == [];
    assert FirstOperand(ms, NamespaceKind) == None;
    assert FirstOperand(ms, DelPackageKind) == None;
    assert Operands(ms, TemplateKind) == [x] + Operands([], TemplateKind);
    assert Operands(ms, DelTemplateKind) == [] + Operands([], DelTemplateKind);
  }

  /** The while (matcher.find()) loop: namespace and delegate package are
      first-wins, tracked by a "not yet set" flag; every deltemplate operand
      is appended to deltemplates and every other command's operand to
      templates. A missing document leaves everything at its default. */
  method ExtractDirectives(document: Option<seq<Match>>) returns (d: Directives)
    ensures d == Extract(MatchesOf(document))
  {
    var templates: seq<string> := [];
    var deltemplates: seq<string> := [];
    var delegate := DEFAULT_DELEGATE;
    var namespace := DEFAULT_NAMESPACE;
    var delegateSet, namespaceSet := false, false;
    var ms := MatchesOf(document);
    var i := 0;
    while i < |ms|
      invariant 0 <= i <= |ms|
      invariant namespaceSet == FirstOperand(ms[..i], NamespaceKind).Some?
      invariant delegateSet == FirstOperand(ms[..i], DelPackageKind).Some?
      invariant Directives(namespace, delegate, templates, deltemplates) == Extract(ms[..i])
    {
      var m := ms[i];
      assert ms[..i + 1] == ms[..i] + [m];
      ExtractSnoc(ms[..i], m);
      FirstOperandSnoc(ms[..i], m, NamespaceKind);
      FirstOperandSnoc(ms[..i], m, DelPackageKind);
      if m.command == "delpackage" {
        if !delegateSet {
          delegate := m.operand;
          delegateSet := true;
        }
      } else if m.command == "namespace" {
        if !namespaceSet {
          namespace := m.operand;
          namespaceSet := true;
        }
      } else if m.command == "deltemplate" {
        deltemplates := deltemplates + [m.operand];
      } else {
        templates := templates + [m.operand];
      }
      i := i + 1;
    }
    assert ms[..i] == ms;
    d := Directives(namespace, delegate, templates, deltemplates);
  }
}
