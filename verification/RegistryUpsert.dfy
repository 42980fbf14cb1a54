/**
 * Applying managed settings to a registry of items and properties: each setting ends up
 * as one property with the right value, duplicates go, and a second pass changes nothing.
 */
module RegistryUpsert {
  import opened Wrappers

  type Attributes = map<string, string>

  /** A child of a property; the first `value` child carries its value. */
  datatype Part = Value(text: Option<string>) | OtherPart(code: nat)

  /** `id` is the element's identity. */
  datatype Prop = Prop(id: nat, attributes: Attributes, parts: seq<Part>)

  datatype Child = PropChild(prop: Prop) | OtherChild(code: nat)

  datatype Node = Item(attributes: Attributes, children: seq<Child>) | OtherNode(code: nat)

  datatype Setting = Setting(path: string, name: string, value: string)

  const PATH := "oor:path"
  const NAME := "oor:name"
  const OP := "oor:op"

  predicate SameKey(s: Setting, t: Setting) { s.path == t.path && s.name == t.name }

  // ---- What matches a setting ----

  predicate OnPath(n: Node, s: Setting)
  {
    n.Item? && PATH in n.attributes && n.attributes[PATH] == s.path
  }

  predicate Named(c: Child, s: Setting)
  {
    c.PropChild? && NAME in c.prop.attributes && c.prop.attributes[NAME] == s.name
  }

  function NamedIn(children: seq<Child>, s: Setting): seq<Prop>
  {
    if children == [] then []
    else if Named(children[0], s) then [children[0].prop] + NamedIn(children[1..], s)
    else NamedIn(children[1..], s)
  }

  function MatchesAt(n: Node, s: Setting): seq<Prop>
  {
    if OnPath(n, s) then NamedIn(n.children, s) else []
  }

  /** The matching properties, in document order. */
  function Matches(nodes: seq<Node>, s: Setting): seq<Prop>
  {
    if nodes == [] then [] else MatchesAt(nodes[0], s) + Matches(nodes[1..], s)
  }

  // ---- Values ----

  function ValueOf(parts: seq<Part>): Option<string>
  {
    if parts == [] then None else if parts[0].Value? then parts[0].text else ValueOf(parts[1..])
  }

  function WithValue(parts: seq<Part>, value: string): seq<Part>
  {
    if parts == [] then [Value(Some(value))]
    else if parts[0].Value? then [Value(Some(value))] + parts[1..]
    else [parts[0]] + WithValue(parts[1..], value)
  }

  function SetValue(p: Prop, value: string): Prop { p.(parts := WithValue(p.parts, value)) }

  lemma {:induction false} WithValueSets(parts: seq<Part>, value: string)
    ensures ValueOf(WithValue(parts, value)) == Some(value)
    ensures WithValue(parts, value) == parts <==> ValueOf(parts) == Some(value)
  {
    var set' := WithValue(parts, value);
    if parts != [] {
      assert set'[1..] == if parts[0].Value? then parts[1..] else WithValue(parts[1..], value);
      if !parts[0].Value? {
        WithValueSets(parts[1..], value);
        assert parts == [parts[0]] + parts[1..];
      } else {
        assert parts == [parts[0]] + parts[1..];
      }
    }
  }

  // ---- What one setting does ----

  /** Sets the first matching property, unless `seen` says there was one before, and drops the others. */
  function SweepChildren(children: seq<Child>, s: Setting, seen: bool): seq<Child>
  {
    if children == [] then []
    else if !Named(children[0], s) then [children[0]] + SweepChildren(children[1..], s, seen)
    else if seen then SweepChildren(children[1..], s, true)
    else [PropChild(SetValue(children[0].prop, s.value))] + SweepChildren(children[1..], s, true)
  }

  /** An item that loses its last child goes too. */
  function SweepNode(n: Node, s: Setting, seen: bool): seq<Node>
  {
    if !OnPath(n, s) then [n]
    else
      var children := SweepChildren(n.children, s, seen);
      if children == [] && n.children != [] then [] else [n.(children := children)]
  }

  function Sweep(nodes: seq<Node>, s: Setting, seen: bool): seq<Node>
  {
    if nodes == [] then []
    else SweepNode(nodes[0], s, seen) + Sweep(nodes[1..], s, seen || MatchesAt(nodes[0], s) != [])
  }

  function NewItem(s: Setting, id: nat): Node
  {
    Item(map[PATH := s.path], [PropChild(Prop(id, map[NAME := s.name, OP := "fuse"], [Value(Some(s.value))]))])
  }

  lemma NewItemChildren(s: Setting, id: nat, t: Setting)
    ensures OnPath(NewItem(s, id), t) <==> s.path == t.path
    ensures NamedIn(NewItem(s, id).children, t) == if s.name == t.name then [NewItem(s, id).children[0].prop] else []
    ensures s.name == t.name ==> OthersIn(NewItem(s, id).children, t) == []
  {
    assert |NAME| != |OP|;
    assert NewItem(s, id).children[1..] == [];
  }

  /** The registry after one setting; `id` is the identity of an element made for it. */
  function Apply(nodes: seq<Node>, s: Setting, id: nat): seq<Node>
  {
    if Matches(nodes, s) == [] then nodes + [NewItem(s, id)] else Sweep(nodes, s, false)
  }

  /** Exactly one property for the setting, and it has the value. */
  predicate Settled(nodes: seq<Node>, s: Setting)
  {
    |Matches(nodes, s)| == 1 && ValueOf(Matches(nodes, s)[0].parts) == Some(s.value)
  }

  // ---- Matches after a sweep ----

  lemma {:induction false} NamedAfterSweep(children: seq<Child>, s: Setting, seen: bool)
    ensures var before, after := NamedIn(children, s), NamedIn(SweepChildren(children, s, seen), s);
            after == if seen || before == [] then [] else [SetValue(before[0], s.value)]
  {
    if children != [] {
      var rest := children[1..];
      if !Named(children[0], s) {
        NamedAfterSweep(rest, s, seen);
        assert SweepChildren(children, s, seen)[1..] == SweepChildren(rest, s, seen);
      } else {
        NamedAfterSweep(rest, s, true);
        if !seen {
          assert SweepChildren(children, s, seen)[1..] == SweepChildren(rest, s, true);
        }
      }
    }
  }

  lemma {:induction false} MatchesAppend(a: seq<Node>, b: seq<Node>, s: Setting)
    ensures Matches(a + b, s) == Matches(a, s) + Matches(b, s)
  {
    if a == [] {
      assert a + b == b;
    } else {
      assert (a + b)[1..] == a[1..] + b;
      MatchesAppend(a[1..], b, s);
    }
  }

  lemma {:induction false} MatchesAfterSweep(nodes: seq<Node>, s: Setting, seen: bool)
    ensures var before, after := Matches(nodes, s), Matches(Sweep(nodes, s, seen), s);
            after == if seen || before == [] then [] else [SetValue(before[0], s.value)]
  {
    if nodes != [] {
      var n := nodes[0];
      var found := MatchesAt(n, s) != [];
      MatchesAfterSweep(nodes[1..], s, seen || found);
      MatchesAppend(SweepNode(n, s, seen), Sweep(nodes[1..], s, seen || found), s);
      if OnPath(n, s) {
        NamedAfterSweep(n.children, s, seen);
      }
    }
  }

  /** After a setting is applied it has one property, with its value. */
  lemma ApplySettles(nodes: seq<Node>, s: Setting, id: nat)
    ensures Settled(Apply(nodes, s, id), s)
  {
    if Matches(nodes, s) == [] {
      MatchesAppend(nodes, [NewItem(s, id)], s);
      NewItemChildren(s, id, s);
    } else {
      MatchesAfterSweep(nodes, s, false);
      WithValueSets(Matches(nodes, s)[0].parts, s.value);
    }
  }

  /** What a property holds beside its first value. */
  function Beside(parts: seq<Part>): seq<Part>
  {
    if parts == [] then [] else if parts[0].Value? then parts[1..] else [parts[0]] + Beside(parts[1..])
  }

  lemma {:induction false} WithValueKeeps(parts: seq<Part>, value: string)
    ensures Beside(WithValue(parts, value)) == Beside(parts)
  {
    if parts != [] && !parts[0].Value? {
      WithValueKeeps(parts[1..], value);
      assert WithValue(parts, value)[1..] == WithValue(parts[1..], value);
    }
  }

  /**
   * Of several properties the first stays the same element and keeps all but its value; otherwise
   * a new one is made.
   */
  lemma ApplyUpserts(nodes: seq<Node>, s: Setting, id: nat)
    ensures var before, after := Matches(nodes, s), Matches(Apply(nodes, s, id), s);
            && |after| == 1
            && if before == [] then
                 Apply(nodes, s, id) == nodes + [Item(map["oor:path" := s.path], [PropChild(after[0])])]
                 && after[0] == Prop(id, map["oor:name" := s.name, "oor:op" := "fuse"], [Value(Some(s.value))])
               else
                 && after[0].id == before[0].id && after[0].attributes == before[0].attributes
                 && Beside(after[0].parts) == Beside(before[0].parts)
  {
    ApplySettles(nodes, s, id);
    if Matches(nodes, s) == [] {
      MatchesAppend(nodes, [NewItem(s, id)], s);
      NewItemChildren(s, id, s);
    } else {
      MatchesAfterSweep(nodes, s, false);
      WithValueKeeps(Matches(nodes, s)[0].parts, s.value);
    }
  }

  // ---- A settled setting changes nothing ----

  lemma {:induction false} SweepKeepsChildren(children: seq<Child>, s: Setting, seen: bool)
    requires seen ==> NamedIn(children, s) == []
    requires |NamedIn(children, s)| <= 1
    requires NamedIn(children, s) != [] ==> ValueOf(NamedIn(children, s)[0].parts) == Some(s.value)
    ensures SweepChildren(children, s, seen) == children
  {
    if children != [] {
      assert children == [children[0]] + children[1..];
      if Named(children[0], s) {
        WithValueSets(children[0].prop.parts, s.value);
        assert NamedIn(children, s) == [children[0].prop] + NamedIn(children[1..], s);
        SweepKeepsChildren(children[1..], s, true);
      } else {
        SweepKeepsChildren(children[1..], s, seen);
      }
    }
  }

  lemma {:induction false} SweepKeeps(nodes: seq<Node>, s: Setting, seen: bool)
    requires seen ==> Matches(nodes, s) == []
    requires |Matches(nodes, s)| <= 1
    requires Matches(nodes, s) != [] ==> ValueOf(Matches(nodes, s)[0].parts) == Some(s.value)
    ensures Sweep(nodes, s, seen) == nodes
  {
    if nodes != [] {
      var n := nodes[0];
      assert nodes == [n] + nodes[1..];
      assert Matches(nodes, s) == MatchesAt(n, s) + Matches(nodes[1..], s);
      if OnPath(n, s) {
        SweepKeepsChildren(n.children, s, seen);
      }
      SweepKeeps(nodes[1..], s, seen || MatchesAt(n, s) != []);
    }
  }

  /** A setting leaves the registry as it is exactly when it is settled already. */
  lemma UnchangedExactly(nodes: seq<Node>, s: Setting, id: nat)
    ensures Apply(nodes, s, id) == nodes <==> Settled(nodes, s)
  {
    if Settled(nodes, s) {
      SweepKeeps(nodes, s, false);
    }
    if Apply(nodes, s, id) == nodes {
      ApplySettles(nodes, s, id);
    }
  }

  // ---- Everything else stays ----

  /** The children that do not match, in order. */
  function OthersIn(children: seq<Child>, s: Setting): seq<Child>
  {
    if children == [] then []
    else if Named(children[0], s) then OthersIn(children[1..], s)
    else [children[0]] + OthersIn(children[1..], s)
  }

  /** A node without its matching properties; none when it held nothing else. */
  function ResidueOf(n: Node, s: Setting): seq<Node>
  {
    if !OnPath(n, s) then [n]
    else
      var others := OthersIn(n.children, s);
      if others == [] && n.children != [] then [] else [n.(children := others)]
  }

  function Residue(nodes: seq<Node>, s: Setting): seq<Node>
  {
    if nodes == [] then [] else ResidueOf(nodes[0], s) + Residue(nodes[1..], s)
  }

  lemma {:induction false} OthersExactly(children: seq<Child>, s: Setting)
    ensures OthersIn(children, s) == [] <==> forall c :: c in children ==> Named(c, s)
    ensures forall c :: c in OthersIn(children, s) <==> c in children && !Named(c, s)
  {
    if children != [] {
      assert children == [children[0]] + children[1..];
      OthersExactly(children[1..], s);
    }
  }

  /** Only a node whose children, at least one, all match goes; any other stays, without its matching children. */
  lemma ResidueExactly(n: Node, s: Setting)
    ensures ResidueOf(n, s) == [] <==> OnPath(n, s) && n.children != [] && forall c :: c in n.children ==> Named(c, s)
    ensures ResidueOf(n, s) != [] ==>
            ResidueOf(n, s) == [if OnPath(n, s) then n.(children := OthersIn(n.children, s)) else n]
  {
    if OnPath(n, s) {
      OthersExactly(n.children, s);
    }
  }

  lemma {:induction false} OthersAfterSweep(children: seq<Child>, s: Setting, seen: bool)
    ensures OthersIn(SweepChildren(children, s, seen), s) == OthersIn(children, s)
    ensures SweepChildren(children, s, seen) == [] ==> OthersIn(children, s) == []
  {
    if children != [] {
      var rest := SweepChildren(children[1..], s, seen || Named(children[0], s));
      OthersAfterSweep(children[1..], s, seen || Named(children[0], s));
      if !Named(children[0], s) || !seen {
        assert SweepChildren(children, s, seen)[1..] == rest;
      }
    }
  }

  lemma {:induction false} ResidueAppend(a: seq<Node>, b: seq<Node>, s: Setting)
    ensures Residue(a + b, s) == Residue(a, s) + Residue(b, s)
  {
    if a == [] {
      assert a + b == b;
    } else {
      assert (a + b)[1..] == a[1..] + b;
      ResidueAppend(a[1..], b, s);
    }
  }

  lemma {:induction false} ResidueAfterSweep(nodes: seq<Node>, s: Setting, seen: bool)
    ensures Residue(Sweep(nodes, s, seen), s) == Residue(nodes, s)
  {
    if nodes != [] {
      var n := nodes[0];
      var later := seen || MatchesAt(n, s) != [];
      ResidueAfterSweep(nodes[1..], s, later);
      ResidueAppend(SweepNode(n, s, seen), Sweep(nodes[1..], s, later), s);
      if OnPath(n, s) {
        OthersAfterSweep(n.children, s, seen);
      }
    }
  }

  /**
   * A setting touches its own properties only: without them, the registry holds the same
   * nodes with the same children in the same order, and items vanish only when they held
   * nothing else.
   */
  lemma ApplyKeepsResidue(nodes: seq<Node>, s: Setting, id: nat)
    ensures Residue(Apply(nodes, s, id), s) == Residue(nodes, s)
  {
    if Matches(nodes, s) == [] {
      ResidueAppend(nodes, [NewItem(s, id)], s);
      NewItemChildren(s, id, s);
      assert Residue(nodes, s) + [] == Residue(nodes, s);
    } else {
      ResidueAfterSweep(nodes, s, false);
    }
  }

  // ---- Other settings stay ----

  lemma {:induction false} OtherNamedAfterSweep(children: seq<Child>, s: Setting, seen: bool, t: Setting)
    requires s.name != t.name
    ensures NamedIn(SweepChildren(children, s, seen), t) == NamedIn(children, t)
  {
    if children != [] {
      OtherNamedAfterSweep(children[1..], s, seen || Named(children[0], s), t);
      if !Named(children[0], s) || !seen {
        assert SweepChildren(children, s, seen)[1..] == SweepChildren(children[1..], s, seen || Named(children[0], s));
      }
    }
  }

  lemma {:induction false} OtherMatchesAfterSweep(nodes: seq<Node>, s: Setting, seen: bool, t: Setting)
    requires !SameKey(s, t)
    ensures Matches(Sweep(nodes, s, seen), t) == Matches(nodes, t)
  {
    if nodes != [] {
      var n := nodes[0];
      var later := seen || MatchesAt(n, s) != [];
      OtherMatchesAfterSweep(nodes[1..], s, later, t);
      MatchesAppend(SweepNode(n, s, seen), Sweep(nodes[1..], s, later), t);
      if OnPath(n, s) {
        if s.name != t.name {
          OtherNamedAfterSweep(n.children, s, seen, t);
        }
      }
    }
  }

  lemma ApplyKeepsOthers(nodes: seq<Node>, s: Setting, id: nat, t: Setting)
    requires !SameKey(s, t)
    ensures Matches(Apply(nodes, s, id), t) == Matches(nodes, t)
  {
    if Matches(nodes, s) == [] {
      MatchesAppend(nodes, [NewItem(s, id)], t);
      NewItemChildren(s, id, t);
    } else {
      OtherMatchesAfterSweep(nodes, s, false, t);
    }
  }

  // ---- A list of settings ----

  function ApplyAll(nodes: seq<Node>, settings: seq<Setting>, id: nat): seq<Node>
    decreases |settings|
  {
    if settings == [] then nodes else ApplyAll(Apply(nodes, settings[0], id), settings[1..], id + 1)
  }

  /** Whether some setting changed the registry on the way. */
  predicate ReportsChange(nodes: seq<Node>, settings: seq<Setting>, id: nat)
    decreases |settings|
  {
    settings != [] &&
    (Apply(nodes, settings[0], id) != nodes || ReportsChange(Apply(nodes, settings[0], id), settings[1..], id + 1))
  }

  /** No two settings want different values for one property. */
  predicate Consistent(settings: seq<Setting>)
  {
    forall i, j :: 0 <= i < j < |settings| && SameKey(settings[i], settings[j]) ==>
      settings[i].value == settings[j].value
  }

  lemma {:induction false} ListKeeps(nodes: seq<Node>, settings: seq<Setting>, id: nat, t: Setting)
    requires Settled(nodes, t)
    requires forall s :: s in settings && SameKey(s, t) ==> s.value == t.value
    ensures Settled(ApplyAll(nodes, settings, id), t)
    decreases |settings|
  {
    if settings != [] {
      var s := settings[0];
      if SameKey(s, t) {
        assert s == t;
        ApplySettles(nodes, s, id);
      } else {
        ApplyKeepsOthers(nodes, s, id, t);
      }
      ListKeeps(Apply(nodes, s, id), settings[1..], id + 1, t);
    }
  }

  /** After a pass, every setting of a consistent list has one property with its value. */
  lemma {:induction false} ListSettles(nodes: seq<Node>, settings: seq<Setting>, id: nat)
    requires Consistent(settings)
    ensures forall s :: s in settings ==> Settled(ApplyAll(nodes, settings, id), s)
    decreases |settings|
  {
    if settings != [] {
      var after := Apply(nodes, settings[0], id);
      ApplySettles(nodes, settings[0], id);
      ListSettles(after, settings[1..], id + 1);
      ListKeeps(after, settings[1..], id + 1, settings[0]);
    }
  }

  /** A pass reports no change exactly when every setting was settled before it, and then changes nothing. */
  lemma {:induction false} NoChangeExactly(nodes: seq<Node>, settings: seq<Setting>, id: nat)
    ensures !ReportsChange(nodes, settings, id) <==> forall s :: s in settings ==> Settled(nodes, s)
    ensures !ReportsChange(nodes, settings, id) ==> ApplyAll(nodes, settings, id) == nodes
    decreases |settings|
  {
    if settings != [] {
      UnchangedExactly(nodes, settings[0], id);
      NoChangeExactly(Apply(nodes, settings[0], id), settings[1..], id + 1);
      assert forall s :: s in settings <==> s == settings[0] || s in settings[1..];
    }
  }

  /** For a consistent list the reported flag tells whether the registry is another one in the end. */
  lemma FlagIsChange(nodes: seq<Node>, settings: seq<Setting>, id: nat)
    requires Consistent(settings)
    ensures ReportsChange(nodes, settings, id) <==> ApplyAll(nodes, settings, id) != nodes
  {
    NoChangeExactly(nodes, settings, id);
    ListSettles(nodes, settings, id);
  }

  lemma QuietIsConsistent(nodes: seq<Node>, settings: seq<Setting>, id: nat)
    requires !ReportsChange(nodes, settings, id)
    ensures Consistent(settings)
  {
    NoChangeExactly(nodes, settings, id);
    forall i, j | 0 <= i < j < |settings| && SameKey(settings[i], settings[j])
      ensures settings[i].value == settings[j].value
    {
      assert Settled(nodes, settings[i]) && Settled(nodes, settings[j]);
      SameKeySameMatches(nodes, settings[i], settings[j]);
    }
  }

  /** The second pass over a list reports no change exactly when the list is consistent. */
  lemma SecondPassQuietExactly(nodes: seq<Node>, settings: seq<Setting>, id: nat, next: nat)
    ensures !ReportsChange(ApplyAll(nodes, settings, id), settings, next) <==> Consistent(settings)
  {
    var once := ApplyAll(nodes, settings, id);
    NoChangeExactly(once, settings, next);
    if Consistent(settings) {
      ListSettles(nodes, settings, id);
    }
    if !ReportsChange(once, settings, next) {
      QuietIsConsistent(once, settings, next);
    }
  }

  /** Two values for one property, in a fresh profile: every pass reports a change. */
  lemma ConflictNeverSettles(id: nat, next: nat)
    ensures var settings := [Setting("p", "n", "1"), Setting("p", "n", "2")];
            ReportsChange(ApplyAll([], settings, id), settings, next)
  {
    var settings := [Setting("p", "n", "1"), Setting("p", "n", "2")];
    assert SameKey(settings[0], settings[1]) && settings[0].value != settings[1].value;
    SecondPassQuietExactly([], settings, id, next);
  }

  lemma {:induction false} SameKeySameNames(children: seq<Child>, s: Setting, t: Setting)
    requires s.name == t.name
    ensures NamedIn(children, s) == NamedIn(children, t)
  {
    if children != [] {
      SameKeySameNames(children[1..], s, t);
    }
  }

  lemma {:induction false} SameKeySameMatches(nodes: seq<Node>, s: Setting, t: Setting)
    requires SameKey(s, t)
    ensures Matches(nodes, s) == Matches(nodes, t)
  {
    if nodes != [] {
      SameKeySameMatches(nodes[1..], s, t);
      if OnPath(nodes[0], s) {
        SameKeySameNames(nodes[0].children, s, t);
      }
    }
  }

  // ---- Through the file ----

  /** The characters that XML 1.0 allows in a document, section 2.2. */
  predicate XmlChar(c: char)
  {
    var n := c as int;
    n == 9 || n == 10 || n == 13 || 0x20 <= n <= 0xD7FF || 0xE000 <= n <= 0xFFFD || n >= 0x10000
  }

  predicate Legal(s: string) { forall i :: 0 <= i < |s| ==> XmlChar(s[i]) }

  /** Control characters other than tab and line ends, and two noncharacters. */
  predicate IsForbidden(c: char)
  {
    || c in "\U{0}\U{1}\U{2}\U{3}\U{4}\U{5}\U{6}\U{7}\U{8}\U{b}\U{c}\U{e}\U{f}"
    || c in "\U{10}\U{11}\U{12}\U{13}\U{14}\U{15}\U{16}\U{17}"
    || c in "\U{18}\U{19}\U{1a}\U{1b}\U{1c}\U{1d}\U{1e}\U{1f}\U{fffe}\U{ffff}"
  }

  lemma XmlCharExactly(c: char)
    ensures XmlChar(c) <==> !IsForbidden(c)
  {
  }

  /** A text can be read again exactly when no forbidden character is in it. */
  lemma LegalExactly(s: string)
    ensures Legal(s) <==> forall c :: c in s ==> !IsForbidden(c)
  {
    forall c | c in s
      ensures XmlChar(c) <==> !IsForbidden(c)
    {
      XmlCharExactly(c);
    }
    assert Legal(s) <==> forall c :: c in s ==> XmlChar(c);
  }

  predicate LegalAttributes(a: Attributes) { forall k :: k in a ==> Legal(a[k]) }

  predicate LegalPart(p: Part) { p.Value? && p.text.Some? ==> Legal(p.text.value) }

  predicate LegalParts(parts: seq<Part>) { forall p :: p in parts ==> LegalPart(p) }

  predicate LegalChild(c: Child) { c.PropChild? ==> LegalAttributes(c.prop.attributes) && LegalParts(c.prop.parts) }

  predicate LegalNode(n: Node)
  {
    n.Item? ==> LegalAttributes(n.attributes) && forall c :: c in n.children ==> LegalChild(c)
  }

  /** A file that is written for these nodes can be parsed again; what a parser returned always can. */
  predicate Legible(nodes: seq<Node>) { forall n :: n in nodes ==> LegalNode(n) }

  /** A parser reads every line end as a newline, section 2.11 of XML 1.0. */
  function OneLineEnd(s: string): string
  {
    if s == "" then ""
    else if s[0] != '\r' then [s[0]] + OneLineEnd(s[1..])
    else if |s| > 1 && s[1] == '\n' then OneLineEnd(s[1..])
    else ['\n'] + OneLineEnd(s[1..])
  }

  /** Printed as it is and parsed again: an empty text comes back as no text, a carriage return as a newline. */
  function ReloadText(text: Option<string>): Option<string>
  {
    if text.None? || text.value == "" then None else Some(OneLineEnd(text.value))
  }

  function ReloadPart(p: Part): Part
  {
    if p.Value? then Value(ReloadText(p.text)) else p
  }

  function ReloadParts(parts: seq<Part>): seq<Part>
  {
    if parts == [] then [] else [ReloadPart(parts[0])] + ReloadParts(parts[1..])
  }

  function ReloadChild(c: Child): Child
  {
    if c.PropChild? then PropChild(c.prop.(parts := ReloadParts(c.prop.parts))) else c
  }

  function ReloadChildren(children: seq<Child>): seq<Child>
  {
    if children == [] then [] else [ReloadChild(children[0])] + ReloadChildren(children[1..])
  }

  function ReloadNode(n: Node): Node
  {
    if n.Item? then n.(children := ReloadChildren(n.children)) else n
  }

  /** Writing and parsing again. Attributes are printed with their line ends escaped and come back as they were. */
  function Reload(nodes: seq<Node>): seq<Node>
  {
    if nodes == [] then [] else [ReloadNode(nodes[0])] + Reload(nodes[1..])
  }

  lemma {:induction false} OneLineEndKeeps(s: string)
    ensures '\r' !in OneLineEnd(s)
    ensures '\r' !in s ==> OneLineEnd(s) == s
  {
    if s != "" {
      assert s == [s[0]] + s[1..];
      OneLineEndKeeps(s[1..]);
    }
  }

  /** A carriage return becomes a newline, with the newline after it if there is one. */
  lemma {:induction false} LineEndRead(line: string, rest: string)
    requires '\r' !in line
    ensures OneLineEnd(line + "\r\n" + rest) == line + "\n" + OneLineEnd(rest)
    ensures (rest == "" || rest[0] != '\n') ==> OneLineEnd(line + "\r" + rest) == line + "\n" + OneLineEnd(rest)
  {
    if line == "" {
      var s, t := "\r\n" + rest, "\r" + rest;
      assert "" + "\r\n" + rest == s && "" + "\r" + rest == t;
      assert s[1..] == "\n" + rest && s[1..][1..] == rest && t[1..] == rest;
    } else {
      assert (line + "\r\n" + rest)[1..] == line[1..] + "\r\n" + rest;
      assert (line + "\r" + rest)[1..] == line[1..] + "\r" + rest;
      assert line == [line[0]] + line[1..];
      LineEndRead(line[1..], rest);
    }
  }

  /** The texts that come back as they were. */
  predicate Keeps(text: string) { text != "" && '\r' !in text }

  lemma TextKeptExactly(text: string)
    ensures ReloadText(Some(text)) == Some(text) <==> Keeps(text)
  {
    OneLineEndKeeps(text);
  }

  lemma {:induction false} ReloadValue(parts: seq<Part>)
    ensures ValueOf(ReloadParts(parts)) == ReloadText(ValueOf(parts))
  {
    if parts != [] {
      assert ReloadParts(parts)[1..] == ReloadParts(parts[1..]);
      ReloadValue(parts[1..]);
    }
  }

  predicate PlainPart(p: Part) { p.Value? && p.text.Some? ==> Keeps(p.text.value) }

  predicate PlainChild(c: Child) { c.PropChild? ==> forall p :: p in c.prop.parts ==> PlainPart(p) }

  predicate PlainNode(n: Node) { n.Item? ==> forall c :: c in n.children ==> PlainChild(c) }

  lemma {:induction false} PartsKeptExactly(parts: seq<Part>)
    ensures ReloadParts(parts) == parts <==> forall p :: p in parts ==> PlainPart(p)
  {
    if parts != [] {
      var front := parts[0];
      assert parts == [front] + parts[1..];
      PartsKeptExactly(parts[1..]);
      if front.Value? && front.text.Some? {
        TextKeptExactly(front.text.value);
      }
      assert ReloadPart(front) == front <==> PlainPart(front);
    }
  }

  lemma {:induction false} ChildrenKeptExactly(children: seq<Child>)
    ensures ReloadChildren(children) == children <==> forall c :: c in children ==> PlainChild(c)
  {
    if children != [] {
      var front := children[0];
      assert children == [front] + children[1..];
      ChildrenKeptExactly(children[1..]);
      if front.PropChild? {
        PartsKeptExactly(front.prop.parts);
      }
      assert ReloadChild(front) == front <==> PlainChild(front);
    }
  }

  /** The file gives the tree back exactly when no value in it, managed or not, is empty or holds a carriage return. */
  lemma {:induction false} ReloadKeepsExactly(nodes: seq<Node>)
    ensures Reload(nodes) == nodes <==> forall n :: n in nodes ==> PlainNode(n)
  {
    if nodes != [] {
      var front := nodes[0];
      assert nodes == [front] + nodes[1..];
      ReloadKeepsExactly(nodes[1..]);
      if front.Item? {
        ChildrenKeptExactly(front.children);
      }
      assert ReloadNode(front) == front <==> PlainNode(front);
    }
  }

  function ReloadProps(props: seq<Prop>): seq<Prop>
  {
    if props == [] then [] else [props[0].(parts := ReloadParts(props[0].parts))] + ReloadProps(props[1..])
  }

  lemma {:induction false} ReloadNamed(children: seq<Child>, s: Setting)
    ensures NamedIn(ReloadChildren(children), s) == ReloadProps(NamedIn(children, s))
  {
    if children != [] {
      assert ReloadChildren(children)[1..] == ReloadChildren(children[1..]);
      ReloadNamed(children[1..], s);
      if Named(children[0], s) {
        assert NamedIn(children, s)[1..] == NamedIn(children[1..], s);
      }
    }
  }

  lemma {:induction false} ReloadPropsAppend(a: seq<Prop>, b: seq<Prop>)
    ensures ReloadProps(a + b) == ReloadProps(a) + ReloadProps(b)
  {
    if a == [] {
      assert a + b == b;
    } else {
      assert (a + b)[1..] == a[1..] + b;
      ReloadPropsAppend(a[1..], b);
    }
  }

  lemma {:induction false} ReloadMatches(nodes: seq<Node>, s: Setting)
    ensures Matches(Reload(nodes), s) == ReloadProps(Matches(nodes, s))
  {
    if nodes != [] {
      assert Reload(nodes)[1..] == Reload(nodes[1..]);
      ReloadMatches(nodes[1..], s);
      ReloadPropsAppend(MatchesAt(nodes[0], s), Matches(nodes[1..], s));
      if OnPath(nodes[0], s) {
        ReloadNamed(nodes[0].children, s);
      }
    }
  }

  /** A settled setting is still settled after the file was read again, exactly when its value comes back. */
  lemma ReloadSettled(nodes: seq<Node>, s: Setting)
    requires Settled(nodes, s)
    ensures Settled(Reload(nodes), s) <==> Keeps(s.value)
  {
    ReloadMatches(nodes, s);
    var m := Matches(nodes, s);
    assert m[1..] == [];
    ReloadValue(m[0].parts);
    TextKeptExactly(s.value);
  }

  predicate LegalSetting(s: Setting) { Legal(s.path) && Legal(s.name) && Legal(s.value) }

  lemma {:induction false} WithValueLegal(parts: seq<Part>, value: string)
    requires LegalParts(parts) && Legal(value)
    ensures LegalParts(WithValue(parts, value))
  {
    if parts != [] && !parts[0].Value? {
      WithValueLegal(parts[1..], value);
    }
  }

  lemma {:induction false} SweepChildrenLegal(children: seq<Child>, s: Setting, seen: bool)
    requires LegalSetting(s) && forall c :: c in children ==> LegalChild(c)
    ensures forall c :: c in SweepChildren(children, s, seen) ==> LegalChild(c)
  {
    if children != [] {
      assert LegalChild(children[0]);
      SweepChildrenLegal(children[1..], s, seen || Named(children[0], s));
      if Named(children[0], s) {
        WithValueLegal(children[0].prop.parts, s.value);
      }
    }
  }

  lemma {:induction false} SweepLegible(nodes: seq<Node>, s: Setting, seen: bool)
    requires LegalSetting(s) && Legible(nodes)
    ensures Legible(Sweep(nodes, s, seen))
  {
    if nodes != [] {
      var n := nodes[0];
      assert LegalNode(n);
      SweepLegible(nodes[1..], s, seen || MatchesAt(n, s) != []);
      if n.Item? {
        SweepChildrenLegal(n.children, s, seen);
      }
    }
  }

  lemma {:induction false} ListLegible(nodes: seq<Node>, settings: seq<Setting>, id: nat)
    requires Legible(nodes) && forall s :: s in settings ==> LegalSetting(s)
    ensures Legible(ApplyAll(nodes, settings, id))
    decreases |settings|
  {
    if settings != [] {
      var s := settings[0];
      assert LegalSetting(s);
      SweepLegible(nodes, s, false);
      assert LegalNode(NewItem(s, id));
      ListLegible(Apply(nodes, s, id), settings[1..], id + 1);
    }
  }

  lemma {:induction false} NamedLegal(children: seq<Child>, s: Setting)
    requires forall c :: c in children ==> LegalChild(c)
    ensures forall p :: p in NamedIn(children, s) ==> Legal(s.name) && LegalParts(p.parts)
  {
    if children != [] {
      assert LegalChild(children[0]);
      NamedLegal(children[1..], s);
    }
  }

  lemma {:induction false} MatchesLegal(nodes: seq<Node>, s: Setting)
    requires Legible(nodes)
    ensures forall p :: p in Matches(nodes, s) ==> Legal(s.path) && Legal(s.name) && LegalParts(p.parts)
  {
    if nodes != [] {
      assert LegalNode(nodes[0]);
      MatchesLegal(nodes[1..], s);
      if OnPath(nodes[0], s) {
        NamedLegal(nodes[0].children, s);
      }
    }
  }

  lemma {:induction false} ValueLegal(parts: seq<Part>)
    requires LegalParts(parts)
    ensures ValueOf(parts).Some? ==> Legal(ValueOf(parts).value)
  {
    if parts != [] {
      assert LegalPart(parts[0]);
      ValueLegal(parts[1..]);
    }
  }

  /** A file for a settled setting can be parsed only if the setting is legal. */
  lemma SettledLegal(nodes: seq<Node>, s: Setting)
    requires Legible(nodes) && Settled(nodes, s)
    ensures LegalSetting(s)
  {
    MatchesLegal(nodes, s);
    var p := Matches(nodes, s)[0];
    assert p in Matches(nodes, s);
    ValueLegal(p.parts);
  }

  /** What the next run loads: the file as it is, or the one written, if it can be parsed. */
  function NextLoad(nodes: seq<Node>, settings: seq<Setting>, id: nat): Option<seq<Node>>
  {
    var once := ApplyAll(nodes, settings, id);
    if !ReportsChange(nodes, settings, id) then Some(nodes)
    else if Legible(once) then Some(Reload(once))
    else None
  }

  /** The next run can read the profile and has nothing to write. */
  predicate QuietNextRun(nodes: seq<Node>, settings: seq<Setting>, id: nat, next: nat)
  {
    var load := NextLoad(nodes, settings, id);
    load.Some? && !ReportsChange(load.value, settings, next)
  }

  /** A setting that the file gives back. */
  predicate Keepable(s: Setting) { LegalSetting(s) && Keeps(s.value) }

  lemma WrittenQuietExactly(once: seq<Node>, settings: seq<Setting>, next: nat)
    requires forall s :: s in settings ==> Settled(once, s)
    ensures !ReportsChange(Reload(once), settings, next) <==> forall s :: s in settings ==> Keeps(s.value)
  {
    NoChangeExactly(Reload(once), settings, next);
    forall s | s in settings
      ensures Settled(Reload(once), s) <==> Keeps(s.value)
    {
      ReloadSettled(once, s);
    }
  }

  lemma NextRunConsistent(nodes: seq<Node>, settings: seq<Setting>, id: nat, next: nat)
    requires Legible(nodes) && Consistent(settings) && ReportsChange(nodes, settings, id)
    ensures QuietNextRun(nodes, settings, id, next) <==> forall s :: s in settings ==> Keepable(s)
  {
    var once := ApplyAll(nodes, settings, id);
    ListSettles(nodes, settings, id);
    WrittenQuietExactly(once, settings, next);
    if Legible(once) {
      forall s | s in settings
        ensures LegalSetting(s)
      {
        SettledLegal(once, s);
      }
    } else if forall s :: s in settings ==> LegalSetting(s) {
      ListLegible(nodes, settings, id);
    }
  }

  /**
   * The next run is quiet exactly when this one already was, or when no two settings
   * conflict and each has legal texts and a value that is neither empty nor holds a
   * carriage return.
   */
  lemma NextRunQuietExactly(nodes: seq<Node>, settings: seq<Setting>, id: nat, next: nat)
    requires Legible(nodes)
    ensures QuietNextRun(nodes, settings, id, next)
            <==>
            || !ReportsChange(nodes, settings, id)
            || (Consistent(settings) && forall s :: s in settings ==> Keepable(s))
  {
    if !ReportsChange(nodes, settings, id) {
      NoChangeExactly(nodes, settings, id);
      NoChangeExactly(nodes, settings, next);
    } else if Consistent(settings) {
      NextRunConsistent(nodes, settings, id, next);
    } else if QuietNextRun(nodes, settings, id, next) {
      QuietIsConsistent(NextLoad(nodes, settings, id).value, settings, next);
    }
  }

  /** An empty value, a carriage return and a control character, each in a fresh profile. */
  lemma NeverQuiet(id: nat, next: nat, value: string)
    requires value in ["", "a\rb", "a\r\nb", "a\U{1}"]
    ensures !QuietNextRun([], [Setting("p", "n", value)], id, next)
  {
    var s := Setting("p", "n", value);
    NextRunQuietExactly([], [s], id, next);
    NoChangeExactly([], [s], id);
    assert s in [s] && !Settled([], s);
    if value == "a\U{1}" {
      assert !XmlChar(value[1]);
    } else if value != "" {
      assert value[1] == '\r';
    }
  }

  // ---- Everything else, over a list of settings ----

  predicate NamedByAny(c: Child, n: Node, settings: seq<Setting>)
  {
    exists s :: s in settings && OnPath(n, s) && Named(c, s)
  }

  /** The children of `n` that no setting is about, in order. */
  function UnmanagedIn(children: seq<Child>, n: Node, settings: seq<Setting>): seq<Child>
  {
    if children == [] then []
    else (if NamedByAny(children[0], n, settings) then [] else [children[0]]) + UnmanagedIn(children[1..], n, settings)
  }

  function UnmanagedOf(n: Node, settings: seq<Setting>): seq<Node>
  {
    if !n.Item? then [n]
    else
      var rest := UnmanagedIn(n.children, n, settings);
      if rest == [] && n.children != [] then [] else [n.(children := rest)]
  }

  /** The registry without the properties of all settings; items that held nothing else are gone. */
  function Unmanaged(nodes: seq<Node>, settings: seq<Setting>): seq<Node>
  {
    if nodes == [] then [] else UnmanagedOf(nodes[0], settings) + Unmanaged(nodes[1..], settings)
  }

  /** Two items of the same attributes are on the same paths. */
  lemma {:induction false} SameUnmanaged(children: seq<Child>, n: Node, m: Node, settings: seq<Setting>)
    requires n.Item? && m.Item? && n.attributes == m.attributes
    ensures UnmanagedIn(children, n, settings) == UnmanagedIn(children, m, settings)
  {
    if children != [] {
      SameUnmanaged(children[1..], n, m, settings);
      assert forall s :: OnPath(n, s) <==> OnPath(m, s);
    }
  }

  lemma {:induction false} UnmanagedAfterSweep(children: seq<Child>, n: Node, s: Setting, seen: bool,
      settings: seq<Setting>)
    requires s in settings && OnPath(n, s)
    ensures UnmanagedIn(SweepChildren(children, s, seen), n, settings) == UnmanagedIn(children, n, settings)
    ensures SweepChildren(children, s, seen) == [] ==> UnmanagedIn(children, n, settings) == []
  {
    if children != [] {
      var c := children[0];
      var swept, rest := SweepChildren(children, s, seen), SweepChildren(children[1..], s, seen || Named(c, s));
      UnmanagedAfterSweep(children[1..], n, s, seen || Named(c, s), settings);
      if Named(c, s) {
        assert NamedByAny(c, n, settings);
        if !seen {
          assert swept[1..] == rest && Named(swept[0], s) && NamedByAny(swept[0], n, settings);
        }
      } else {
        assert swept[1..] == rest && swept[0] == c;
      }
    }
  }

  lemma UnmanagedNode(n: Node, s: Setting, seen: bool, settings: seq<Setting>)
    requires s in settings
    ensures Unmanaged(SweepNode(n, s, seen), settings) == UnmanagedOf(n, settings)
  {
    if OnPath(n, s) {
      var swept := n.(children := SweepChildren(n.children, s, seen));
      UnmanagedAfterSweep(n.children, n, s, seen, settings);
      SameUnmanaged(swept.children, swept, n, settings);
    }
  }

  lemma {:induction false} UnmanagedAppend(a: seq<Node>, b: seq<Node>, settings: seq<Setting>)
    ensures Unmanaged(a + b, settings) == Unmanaged(a, settings) + Unmanaged(b, settings)
  {
    if a == [] {
      assert a + b == b;
    } else {
      assert (a + b)[1..] == a[1..] + b;
      UnmanagedAppend(a[1..], b, settings);
    }
  }

  lemma {:induction false} UnmanagedSweep(nodes: seq<Node>, s: Setting, seen: bool, settings: seq<Setting>)
    requires s in settings
    ensures Unmanaged(Sweep(nodes, s, seen), settings) == Unmanaged(nodes, settings)
  {
    if nodes != [] {
      var n := nodes[0];
      var later := seen || MatchesAt(n, s) != [];
      UnmanagedSweep(nodes[1..], s, later, settings);
      UnmanagedAppend(SweepNode(n, s, seen), Sweep(nodes[1..], s, later), settings);
      UnmanagedNode(n, s, seen, settings);
    }
  }

  lemma UnmanagedApply(nodes: seq<Node>, s: Setting, id: nat, settings: seq<Setting>)
    requires s in settings
    ensures Unmanaged(Apply(nodes, s, id), settings) == Unmanaged(nodes, settings)
  {
    if Matches(nodes, s) == [] {
      var made := NewItem(s, id);
      UnmanagedAppend(nodes, [made], settings);
      NewItemChildren(s, id, s);
      var c := made.children[0];
      assert made.children == [c];
      assert Named(c, s) by {
        assert NamedIn([c], s) == [c.prop];
      }
      assert NamedByAny(c, made, settings);
      assert UnmanagedIn([c], made, settings) == [] + UnmanagedIn([c][1..], made, settings);
      assert Unmanaged(nodes, settings) + [] == Unmanaged(nodes, settings);
    } else {
      UnmanagedSweep(nodes, s, false, settings);
    }
  }

  lemma {:induction false} UnmanagedPass(nodes: seq<Node>, settings: seq<Setting>, id: nat, all: seq<Setting>)
    requires forall s :: s in settings ==> s in all
    ensures Unmanaged(ApplyAll(nodes, settings, id), all) == Unmanaged(nodes, all)
    decreases |settings|
  {
    if settings != [] {
      UnmanagedApply(nodes, settings[0], id, all);
      UnmanagedPass(Apply(nodes, settings[0], id), settings[1..], id + 1, all);
    }
  }

  /**
   * A whole pass leaves everything that no setting is about with its contents and in its
   * order, and no item vanishes that holds anything else.
   */
  lemma ListKeepsUnmanaged(nodes: seq<Node>, settings: seq<Setting>, id: nat)
    ensures Unmanaged(ApplyAll(nodes, settings, id), settings) == Unmanaged(nodes, settings)
  {
    UnmanagedPass(nodes, settings, id, settings);
  }

  /** Reading again does not change which children a setting is about. */
  lemma {:induction false} UnmanagedReloadIn(children: seq<Child>, n: Node, m: Node, settings: seq<Setting>)
    requires n.Item? && m.Item? && n.attributes == m.attributes
    ensures UnmanagedIn(ReloadChildren(children), m, settings) == ReloadChildren(UnmanagedIn(children, n, settings))
  {
    if children != [] {
      var c, rest := children[0], children[1..];
      assert ReloadChildren(children)[0] == ReloadChild(c) && ReloadChildren(children)[1..] == ReloadChildren(rest);
      assert forall s :: OnPath(n, s) <==> OnPath(m, s);
      assert forall s :: Named(ReloadChild(c), s) <==> Named(c, s);
      assert NamedByAny(ReloadChild(c), m, settings) <==> NamedByAny(c, n, settings);
      UnmanagedReloadIn(rest, n, m, settings);
      var kept := UnmanagedIn(rest, n, settings);
      assert ([c] + kept)[1..] == kept;
      assert [] + ReloadChildren(kept) == ReloadChildren(kept) && [] + kept == kept;
    }
  }

  lemma {:induction false} ReloadAppend(a: seq<Node>, b: seq<Node>)
    ensures Reload(a + b) == Reload(a) + Reload(b)
  {
    if a == [] {
      assert a + b == b;
    } else {
      assert (a + b)[1..] == a[1..] + b;
      ReloadAppend(a[1..], b);
    }
  }

  lemma UnmanagedReloadOf(n: Node, settings: seq<Setting>)
    ensures UnmanagedOf(ReloadNode(n), settings) == Reload(UnmanagedOf(n, settings))
  {
    if n.Item? {
      UnmanagedReloadIn(n.children, n, ReloadNode(n), settings);
    }
  }

  /** What no setting is about, read again, is what no setting is about in what was read again. */
  lemma {:induction false} UnmanagedReload(nodes: seq<Node>, settings: seq<Setting>)
    ensures Unmanaged(Reload(nodes), settings) == Reload(Unmanaged(nodes, settings))
  {
    if nodes != [] {
      UnmanagedReload(nodes[1..], settings);
      UnmanagedReloadOf(nodes[0], settings);
      ReloadAppend(UnmanagedOf(nodes[0], settings), Unmanaged(nodes[1..], settings));
    }
  }

  /**
   * Through the file, what no setting is about is the same for the next run exactly when
   * this run had nothing to write, or no value in it is empty or holds a carriage return.
   */
  lemma FileKeepsUnmanagedExactly(nodes: seq<Node>, settings: seq<Setting>, id: nat)
    requires NextLoad(nodes, settings, id).Some?
    ensures Unmanaged(NextLoad(nodes, settings, id).value, settings) == Unmanaged(nodes, settings)
            <==> !ReportsChange(nodes, settings, id) || forall n :: n in Unmanaged(nodes, settings) ==> PlainNode(n)
  {
    if ReportsChange(nodes, settings, id) {
      ListKeepsUnmanaged(nodes, settings, id);
      UnmanagedReload(ApplyAll(nodes, settings, id), settings);
      ReloadKeepsExactly(Unmanaged(nodes, settings));
    }
  }

  /** An item with one property that the setting of `FileChangesUnmanaged` is not about. */
  const FOREIGN: Node :=
    Item(map[PATH := "p"], [PropChild(Prop(0, map[NAME := "other"], [Value(Some("x\ry"))]))])

  lemma ForeignIsLegible()
    ensures Legible([FOREIGN])
  {
    var c := FOREIGN.children[0];
    assert FOREIGN.children == [c] && c.prop.parts == [Value(Some("x\ry"))];
    assert LegalPart(c.prop.parts[0]);
    assert forall p :: p in c.prop.parts ==> p == c.prop.parts[0];
    assert LegalParts(c.prop.parts);
    assert LegalAttributes(c.prop.attributes) && LegalAttributes(FOREIGN.attributes);
    assert LegalChild(c);
    assert forall d :: d in FOREIGN.children ==> d == c;
    assert LegalNode(FOREIGN);
  }

  lemma {:induction false} ForeignIsUnmanaged(s: Setting)
    requires s.name == "n"
    ensures Matches([FOREIGN], s) == [] && Unmanaged([FOREIGN], [s]) == [FOREIGN]
  {
    var c, rest := FOREIGN.children[0], FOREIGN.children[1..];
    assert c.prop.attributes[NAME] == "other" && |"other"| != |"n"|;
    assert rest == [] && [FOREIGN][1..] == [];
    assert NamedIn(FOREIGN.children, s) == NamedIn(rest, s);
    assert MatchesAt(FOREIGN, s) == [];
    assert !NamedByAny(c, FOREIGN, [s]);
    var kept := UnmanagedIn(FOREIGN.children, FOREIGN, [s]);
    assert kept == [c] + UnmanagedIn(rest, FOREIGN, [s]);
    assert kept == FOREIGN.children && FOREIGN.(children := kept) == FOREIGN;
    assert UnmanagedOf(FOREIGN, [s]) == [FOREIGN];
    assert Unmanaged([FOREIGN], [s]) == [FOREIGN] + Unmanaged([], [s]);
  }

  lemma ForeignIsNotPlain()
    ensures !PlainNode(FOREIGN)
  {
    var c := FOREIGN.children[0];
    assert "x\ry"[1] == '\r';
    assert c.prop.parts[0] in c.prop.parts && !PlainPart(c.prop.parts[0]);
    assert c in FOREIGN.children && !PlainChild(c);
  }

  /** One setting to write turns the carriage return in another property into a newline. */
  lemma FileChangesUnmanaged()
    ensures var s := Setting("p", "n", "1");
            && NextLoad([FOREIGN], [s], 1).Some?
            && Unmanaged(NextLoad([FOREIGN], [s], 1).value, [s]) != Unmanaged([FOREIGN], [s])
  {
    var s := Setting("p", "n", "1");
    ForeignIsLegible();
    ForeignIsUnmanaged(s);
    ForeignIsNotPlain();
    assert s in [s] && !Settled([FOREIGN], s);
    NoChangeExactly([FOREIGN], [s], 1);
    ListLegible([FOREIGN], [s], 1);
    assert FOREIGN in [FOREIGN];
    FileKeepsUnmanagedExactly([FOREIGN], [s], 1);
  }

  /** The properties of a path and name that no setting has stay the very same ones. */
  lemma {:induction false} ListKeepsOthers(nodes: seq<Node>, settings: seq<Setting>, id: nat, t: Setting)
    requires forall s :: s in settings ==> !SameKey(s, t)
    ensures Matches(ApplyAll(nodes, settings, id), t) == Matches(nodes, t)
    decreases |settings|
  {
    if settings != [] {
      ApplyKeepsOthers(nodes, settings[0], id, t);
      ListKeepsOthers(Apply(nodes, settings[0], id), settings[1..], id + 1, t);
    }
  }

  /** One element with all it had but its value. */
  predicate SameElement(p: Prop, q: Prop)
  {
    p.id == q.id && p.attributes == q.attributes && Beside(p.parts) == Beside(q.parts)
  }

  /** The first property of each path and name stays through a whole pass, so only duplicates ever go. */
  lemma {:induction false} ListKeepsFirst(nodes: seq<Node>, settings: seq<Setting>, id: nat, t: Setting)
    requires Matches(nodes, t) != []
    ensures var after := Matches(ApplyAll(nodes, settings, id), t);
            after != [] && SameElement(after[0], Matches(nodes, t)[0])
    decreases |settings|
  {
    if settings != [] {
      var s := settings[0];
      if SameKey(s, t) {
        ApplyUpserts(nodes, s, id);
        SameKeySameMatches(nodes, s, t);
        SameKeySameMatches(Apply(nodes, s, id), s, t);
      } else {
        ApplyKeepsOthers(nodes, s, id, t);
      }
      ListKeepsFirst(Apply(nodes, s, id), settings[1..], id + 1, t);
    }
  }

  // ---- The elements as the program finds them: by identity ----

  function PropIds(props: seq<Prop>): seq<nat>
  {
    if props == [] then [] else [props[0].id] + PropIds(props[1..])
  }

  function IdsIn(children: seq<Child>): seq<nat>
  {
    if children == [] then []
    else if children[0].PropChild? then [children[0].prop.id] + IdsIn(children[1..])
    else IdsIn(children[1..])
  }

  function Ids(nodes: seq<Node>): seq<nat>
  {
    if nodes == [] then [] else IdsAt(nodes[0]) + Ids(nodes[1..])
  }

  function IdsAt(n: Node): seq<nat>
  {
    if n.Item? then IdsIn(n.children) else []
  }

  predicate Unique(ids: seq<nat>)
  {
    forall i, j :: 0 <= i < j < |ids| ==> ids[i] != ids[j]
  }

  lemma UniqueParts(a: seq<nat>, b: seq<nat>)
    ensures Unique(a + b) <==> Unique(a) && Unique(b) && forall x :: x in a ==> x !in b
  {
    var s := a + b;
    if Unique(s) {
      forall i, j | 0 <= i < j < |a|
        ensures a[i] != a[j]
      {
        assert s[i] != s[j];
      }
      forall i, j | 0 <= i < j < |b|
        ensures b[i] != b[j]
      {
        assert s[|a| + i] != s[|a| + j];
      }
      forall x | x in a
        ensures x !in b
      {
        var i :| 0 <= i < |a| && a[i] == x;
        forall j | 0 <= j < |b|
          ensures b[j] != x
        {
          assert s[i] != s[|a| + j];
        }
      }
    }
    if Unique(a) && Unique(b) && forall x :: x in a ==> x !in b {
      forall i, j | 0 <= i < j < |s|
        ensures s[i] != s[j]
      {
        assert i < |a| ==> s[i] == a[i] && a[i] in a;
        assert j >= |a| ==> s[j] == b[j - |a|] && b[j - |a|] in b;
      }
    }
  }

  function SetChild(children: seq<Child>, id: nat, value: string): seq<Child>
  {
    if children == [] then []
    else if children[0].PropChild? && children[0].prop.id == id then
      [PropChild(SetValue(children[0].prop, value))] + children[1..]
    else [children[0]] + SetChild(children[1..], id, value)
  }

  /** Sets the value of the element `id`, wherever it is. */
  function SetById(nodes: seq<Node>, id: nat, value: string): seq<Node>
  {
    if nodes == [] then []
    else if id in IdsAt(nodes[0]) then [nodes[0].(children := SetChild(nodes[0].children, id, value))] + nodes[1..]
    else [nodes[0]] + SetById(nodes[1..], id, value)
  }

  function RemoveChild(children: seq<Child>, id: nat): seq<Child>
  {
    if children == [] then []
    else if children[0].PropChild? && children[0].prop.id == id then children[1..]
    else [children[0]] + RemoveChild(children[1..], id)
  }

  /** Removes the element `id` from the first item that holds it, and the item when that empties it. */
  function RemoveById(nodes: seq<Node>, id: nat): seq<Node>
  {
    if nodes == [] then []
    else if id in IdsAt(nodes[0]) then
      var children := RemoveChild(nodes[0].children, id);
      (if children == [] then [] else [nodes[0].(children := children)]) + nodes[1..]
    else [nodes[0]] + RemoveById(nodes[1..], id)
  }

  function RemoveAll(nodes: seq<Node>, ids: seq<nat>): seq<Node>
    decreases |ids|
  {
    if ids == [] then nodes else RemoveAll(RemoveById(nodes, ids[0]), ids[1..])
  }

  function RemoveChildren(children: seq<Child>, ids: seq<nat>): seq<Child>
    decreases |ids|
  {
    if ids == [] then children else RemoveChildren(RemoveChild(children, ids[0]), ids[1..])
  }

  lemma {:induction false} RemoveAllAppend(nodes: seq<Node>, a: seq<nat>, b: seq<nat>)
    ensures RemoveAll(nodes, a + b) == RemoveAll(RemoveAll(nodes, a), b)
    decreases |a|
  {
    if a == [] {
      assert a + b == b;
    } else {
      assert (a + b)[1..] == a[1..] + b;
      RemoveAllAppend(RemoveById(nodes, a[0]), a[1..], b);
    }
  }

  /** Elements that are not in `n` are removed behind it. */
  lemma {:induction false} RemoveBehind(front: seq<Node>, nodes: seq<Node>, ids: seq<nat>)
    requires |front| <= 1 && forall x :: x in ids ==> x !in Ids(front)
    ensures RemoveAll(front + nodes, ids) == front + RemoveAll(nodes, ids)
    decreases |ids|
  {
    if front == [] {
      assert front + nodes == nodes && front + RemoveAll(nodes, ids) == RemoveAll(nodes, ids);
    } else if ids != [] {
      assert front == [front[0]] && front[1..] == [];
      assert (front + nodes)[1..] == nodes;
      assert Ids(front) == IdsAt(front[0]) + [];
      assert ids[0] in ids;
      assert RemoveById(front + nodes, ids[0]) == front + RemoveById(nodes, ids[0]);
      RemoveBehind(front, RemoveById(nodes, ids[0]), ids[1..]);
    }
  }

  lemma {:induction false} RemoveChildIds(children: seq<Child>, id: nat)
    requires Unique(IdsIn(children)) && id in IdsIn(children)
    ensures forall x :: x in IdsIn(RemoveChild(children, id)) <==> x in IdsIn(children) && x != id
    ensures Unique(IdsIn(RemoveChild(children, id)))
  {
    var c, rest := children[0], children[1..];
    if c.PropChild? && c.prop.id == id {
      UniqueParts([id], IdsIn(rest));
    } else {
      var removed := RemoveChild(rest, id);
      assert RemoveChild(children, id)[1..] == removed;
      if c.PropChild? {
        UniqueParts([c.prop.id], IdsIn(rest));
        RemoveChildIds(rest, id);
        UniqueParts([c.prop.id], IdsIn(removed));
      } else {
        RemoveChildIds(rest, id);
      }
    }
  }

  lemma {:induction false} RemoveWithin(n: Node, nodes: seq<Node>, ids: seq<nat>)
    requires n.Item? && Unique(IdsIn(n.children)) && Unique(ids) && forall x :: x in ids ==> x in IdsIn(n.children)
    ensures var children := RemoveChildren(n.children, ids);
            RemoveAll([n] + nodes, ids)
            == (if children == [] && n.children != [] then [] else [n.(children := children)]) + nodes
    decreases |ids|
  {
    if ids != [] {
      var m := n.(children := RemoveChild(n.children, ids[0]));
      RemoveChildIds(n.children, ids[0]);
      UniqueParts([ids[0]], ids[1..]);
      assert ids == [ids[0]] + ids[1..];
      assert |ids[1..]| > 0 ==> ids[1..][0] in IdsIn(m.children);
      assert ([n] + nodes)[1..] == nodes;
      if m.children == [] {
        assert ids[1..] == [];
      } else {
        assert RemoveById([n] + nodes, ids[0]) == [m] + nodes;
        RemoveWithin(m, nodes, ids[1..]);
      }
    }
  }

  lemma {:induction false} KeepFirstChild(c: Child, children: seq<Child>, ids: seq<nat>)
    requires c.PropChild? ==> c.prop.id !in ids
    ensures RemoveChildren([c] + children, ids) == [c] + RemoveChildren(children, ids)
    decreases |ids|
  {
    if ids != [] {
      assert ([c] + children)[1..] == children;
      KeepFirstChild(c, RemoveChild(children, ids[0]), ids[1..]);
    }
  }

  lemma {:induction false} NamedIds(children: seq<Child>, s: Setting)
    ensures forall x :: x in PropIds(NamedIn(children, s)) ==> x in IdsIn(children)
    ensures Unique(IdsIn(children)) ==> Unique(PropIds(NamedIn(children, s)))
  {
    if children != [] {
      NamedIds(children[1..], s);
      if children[0].PropChild? {
        UniqueParts([children[0].prop.id], IdsIn(children[1..]));
        if Named(children[0], s) {
          assert NamedIn(children, s)[1..] == NamedIn(children[1..], s);
          UniqueParts([children[0].prop.id], PropIds(NamedIn(children[1..], s)));
        }
      }
    }
  }

  /** Removing the matching elements one by one is sweeping with the first one already seen. */
  lemma {:induction false} RemoveIsSweepChildren(children: seq<Child>, s: Setting)
    requires Unique(IdsIn(children))
    ensures RemoveChildren(children, PropIds(NamedIn(children, s))) == SweepChildren(children, s, true)
  {
    if children != [] {
      var c, rest := children[0], children[1..];
      assert children == [c] + rest;
      NamedIds(rest, s);
      if c.PropChild? {
        UniqueParts([c.prop.id], IdsIn(rest));
      }
      RemoveIsSweepChildren(rest, s);
      if Named(c, s) {
        var ids := PropIds(NamedIn(children, s));
        assert NamedIn(children, s)[1..] == NamedIn(rest, s);
        assert ids[1..] == PropIds(NamedIn(rest, s));
      } else {
        KeepFirstChild(c, rest, PropIds(NamedIn(rest, s)));
      }
    }
  }

  /** The same, keeping the first and setting its value. */
  lemma {:induction false} SetAndRemoveIsSweepChildren(children: seq<Child>, s: Setting)
    requires Unique(IdsIn(children)) && NamedIn(children, s) != []
    ensures var ids := PropIds(NamedIn(children, s));
            RemoveChildren(SetChild(children, ids[0], s.value), ids[1..]) == SweepChildren(children, s, false)
  {
    var c, rest := children[0], children[1..];
    assert children == [c] + rest;
    var ids := PropIds(NamedIn(children, s));
    NamedIds(rest, s);
    if c.PropChild? {
      UniqueParts([c.prop.id], IdsIn(rest));
    }
    if Named(c, s) {
      assert NamedIn(children, s)[1..] == NamedIn(rest, s);
      assert ids[1..] == PropIds(NamedIn(rest, s));
      KeepFirstChild(PropChild(SetValue(c.prop, s.value)), rest, ids[1..]);
      RemoveIsSweepChildren(rest, s);
    } else {
      assert ids == PropIds(NamedIn(rest, s)) && ids[0] in ids;
      assert forall x :: x in ids[1..] ==> x in ids;
      SetAndRemoveIsSweepChildren(rest, s);
      KeepFirstChild(c, SetChild(rest, ids[0], s.value), ids[1..]);
    }
  }

  lemma {:induction false} PropIdsAppend(a: seq<Prop>, b: seq<Prop>)
    ensures PropIds(a + b) == PropIds(a) + PropIds(b)
  {
    if a == [] {
      assert a + b == b;
    } else {
      assert (a + b)[1..] == a[1..] + b;
      PropIdsAppend(a[1..], b);
    }
  }

  lemma {:induction false} SweepChildrenIds(children: seq<Child>, s: Setting, seen: bool)
    requires Unique(IdsIn(children))
    ensures forall x :: x in IdsIn(SweepChildren(children, s, seen)) ==> x in IdsIn(children)
    ensures Unique(IdsIn(SweepChildren(children, s, seen)))
  {
    if children != [] {
      var c, rest := children[0], children[1..];
      var later := seen || Named(c, s);
      var swept := SweepChildren(rest, s, later);
      if c.PropChild? {
        UniqueParts([c.prop.id], IdsIn(rest));
        SweepChildrenIds(rest, s, later);
        UniqueParts([c.prop.id], IdsIn(swept));
      } else {
        SweepChildrenIds(rest, s, later);
      }
      if !(seen && Named(c, s)) {
        assert SweepChildren(children, s, seen)[1..] == swept;
      }
    }
  }

  lemma SweepNodeIds(n: Node, s: Setting, seen: bool)
    requires Unique(IdsAt(n))
    ensures forall x :: x in Ids(SweepNode(n, s, seen)) ==> x in IdsAt(n)
    ensures Unique(Ids(SweepNode(n, s, seen)))
  {
    if n.Item? {
      SweepChildrenIds(n.children, s, seen);
    }
    var front := SweepNode(n, s, seen);
    assert front != [] ==> front[1..] == [] && Ids(front) == IdsAt(front[0]) + [];
  }

  lemma {:induction false} IdsAppend(a: seq<Node>, b: seq<Node>)
    ensures Ids(a + b) == Ids(a) + Ids(b)
  {
    if a == [] {
      assert a + b == b;
    } else {
      assert (a + b)[1..] == a[1..] + b;
      IdsAppend(a[1..], b);
    }
  }

  lemma {:induction false} SweepIds(nodes: seq<Node>, s: Setting, seen: bool)
    requires Unique(Ids(nodes))
    ensures forall x :: x in Ids(Sweep(nodes, s, seen)) ==> x in Ids(nodes)
    ensures Unique(Ids(Sweep(nodes, s, seen)))
  {
    if nodes != [] {
      var later := seen || MatchesAt(nodes[0], s) != [];
      UniqueParts(IdsAt(nodes[0]), Ids(nodes[1..]));
      SweepNodeIds(nodes[0], s, seen);
      SweepIds(nodes[1..], s, later);
      IdsAppend(SweepNode(nodes[0], s, seen), Sweep(nodes[1..], s, later));
      UniqueParts(Ids(SweepNode(nodes[0], s, seen)), Ids(Sweep(nodes[1..], s, later)));
    }
  }

  lemma {:induction false} MatchIds(nodes: seq<Node>, s: Setting)
    ensures forall x :: x in PropIds(Matches(nodes, s)) ==> x in Ids(nodes)
  {
    if nodes != [] {
      MatchIds(nodes[1..], s);
      PropIdsAppend(MatchesAt(nodes[0], s), Matches(nodes[1..], s));
      if OnPath(nodes[0], s) {
        NamedIds(nodes[0].children, s);
      }
    }
  }

  /** Sweeping the rest once the first node is done. */
  lemma FrontIsSwept(n: Node, rest: seq<Node>, s: Setting, seen: bool)
    requires Unique(Ids([n] + rest))
    ensures Unique(IdsAt(n)) && Unique(Ids(rest))
    ensures forall x :: x in PropIds(Matches(rest, s)) ==> x !in IdsAt(n) && x !in Ids(SweepNode(n, s, seen))
    ensures |SweepNode(n, s, seen)| <= 1
  {
    assert ([n] + rest)[1..] == rest;
    UniqueParts(IdsAt(n), Ids(rest));
    SweepNodeIds(n, s, seen);
    MatchIds(rest, s);
  }

  lemma {:induction false} RemoveIsSweep(nodes: seq<Node>, s: Setting)
    requires Unique(Ids(nodes))
    ensures RemoveAll(nodes, PropIds(Matches(nodes, s))) == Sweep(nodes, s, true)
  {
    if nodes != [] {
      var n, rest := nodes[0], nodes[1..];
      assert nodes == [n] + rest;
      FrontIsSwept(n, rest, s, true);
      RemoveIsSweep(rest, s);
      var here, later := PropIds(MatchesAt(n, s)), PropIds(Matches(rest, s));
      PropIdsAppend(MatchesAt(n, s), Matches(rest, s));
      RemoveAllAppend(nodes, here, later);
      if OnPath(n, s) {
        NamedIds(n.children, s);
        RemoveWithin(n, rest, here);
        RemoveIsSweepChildren(n.children, s);
      }
      RemoveBehind(SweepNode(n, s, true), rest, later);
    }
  }

  lemma {:induction false} SetChildIds(children: seq<Child>, id: nat, value: string)
    ensures IdsIn(SetChild(children, id, value)) == IdsIn(children)
    ensures (SetChild(children, id, value) == []) == (children == [])
  {
    if children != [] {
      if !(children[0].PropChild? && children[0].prop.id == id) {
        assert SetChild(children, id, value)[1..] == SetChild(children[1..], id, value);
        SetChildIds(children[1..], id, value);
      } else {
        assert SetChild(children, id, value)[1..] == children[1..];
      }
    }
  }

  /** The first match is in the first node. */
  lemma SetInFirst(n: Node, rest: seq<Node>, s: Setting)
    requires Unique(Ids([n] + rest)) && MatchesAt(n, s) != []
    ensures var here, later := PropIds(MatchesAt(n, s)), PropIds(Matches(rest, s));
            RemoveAll(SetById([n] + rest, here[0], s.value), here[1..] + later) == Sweep([n] + rest, s, false)
  {
    var here, later := PropIds(MatchesAt(n, s)), PropIds(Matches(rest, s));
    var m := n.(children := SetChild(n.children, here[0], s.value));
    assert ([n] + rest)[1..] == rest;
    FrontIsSwept(n, rest, s, false);
    NamedIds(n.children, s);
    assert here == [here[0]] + here[1..] && here[0] in here && forall x :: x in here[1..] ==> x in here;
    UniqueParts([here[0]], here[1..]);
    SetChildIds(n.children, here[0], s.value);
    assert SetById([n] + rest, here[0], s.value) == [m] + rest;
    RemoveAllAppend([m] + rest, here[1..], later);
    RemoveWithin(m, rest, here[1..]);
    SetAndRemoveIsSweepChildren(n.children, s);
    RemoveBehind(SweepNode(n, s, false), rest, later);
    RemoveIsSweep(rest, s);
  }

  /** The first match is in the rest, where the program does what the sweep does. */
  lemma SetInRest(n: Node, rest: seq<Node>, s: Setting)
    requires Unique(Ids([n] + rest)) && MatchesAt(n, s) == [] && Matches(rest, s) != []
    requires var ids := PropIds(Matches(rest, s));
             RemoveAll(SetById(rest, ids[0], s.value), ids[1..]) == Sweep(rest, s, false)
    ensures var ids := PropIds(Matches(rest, s));
            RemoveAll(SetById([n] + rest, ids[0], s.value), ids[1..]) == Sweep([n] + rest, s, false)
  {
    var ids := PropIds(Matches(rest, s));
    assert ([n] + rest)[1..] == rest;
    FrontIsSwept(n, rest, s, false);
    assert ids[0] in ids && forall x :: x in ids[1..] ==> x in ids;
    assert SetById([n] + rest, ids[0], s.value) == [n] + SetById(rest, ids[0], s.value);
    assert Ids([n]) == IdsAt(n) + [] by {
      assert [n][1..] == [];
    }
    RemoveBehind([n], SetById(rest, ids[0], s.value), ids[1..]);
    if OnPath(n, s) {
      SweepKeepsChildren(n.children, s, false);
    }
  }

  lemma FirstOfBoth(ids: seq<nat>, here: seq<nat>, later: seq<nat>)
    requires ids == here + later
    ensures here == [] ==> ids == later
    ensures here != [] ==> ids[0] == here[0] && ids[1..] == here[1..] + later
  {
  }

  /** What the program does, element by element, is the sweep. */
  lemma {:induction false} SetAndRemoveIsSweep(nodes: seq<Node>, s: Setting)
    requires Unique(Ids(nodes)) && Matches(nodes, s) != []
    ensures var ids := PropIds(Matches(nodes, s));
            RemoveAll(SetById(nodes, ids[0], s.value), ids[1..]) == Sweep(nodes, s, false)
  {
    var n, rest := nodes[0], nodes[1..];
    assert nodes == [n] + rest;
    PropIdsAppend(MatchesAt(n, s), Matches(rest, s));
    FirstOfBoth(PropIds(Matches(nodes, s)), PropIds(MatchesAt(n, s)), PropIds(Matches(rest, s)));
    if MatchesAt(n, s) == [] {
      FrontIsSwept(n, rest, s, false);
      SetAndRemoveIsSweep(rest, s);
      SetInRest(n, rest, s);
    } else {
      SetInFirst(n, rest, s);
    }
  }

  /** An item without the element `id`; nothing when that was all it held. */
  function Without(n: Node, id: nat): seq<Node>
    requires n.Item?
  {
    var children := RemoveChild(n.children, id);
    if children == [] then [] else [n.(children := children)]
  }

  lemma Prefixed(nodes: seq<Node>, i: nat, middle: seq<Node>)
    requires 0 < i < |nodes|
    ensures [nodes[0]] + (nodes[1..][..i - 1] + middle + nodes[1..][i..]) == nodes[..i] + middle + nodes[i + 1..]
  {
    assert nodes[..i] == [nodes[0]] + nodes[1..][..i - 1];
    assert nodes[1..][i..] == nodes[i + 1..];
  }

  lemma {:induction false} RemoveAt(nodes: seq<Node>, i: nat, id: nat)
    requires i < |nodes| && id in IdsAt(nodes[i]) && forall j :: 0 <= j < i ==> id !in IdsAt(nodes[j])
    ensures RemoveById(nodes, id) == nodes[..i] + Without(nodes[i], id) + nodes[i + 1..]
  {
    if i > 0 {
      RemoveAt(nodes[1..], i - 1, id);
      Prefixed(nodes, i, Without(nodes[i], id));
    } else {
      assert nodes[..0] + Without(nodes[0], id) == Without(nodes[0], id);
    }
  }

  lemma {:induction false} RemoveAbsent(nodes: seq<Node>, id: nat)
    requires forall j :: 0 <= j < |nodes| ==> id !in IdsAt(nodes[j])
    ensures RemoveById(nodes, id) == nodes
  {
    if nodes != [] {
      RemoveAbsent(nodes[1..], id);
    }
  }

  // ---- The program ----

  class Registry {
    var nodes: seq<Node>
    var nextId: nat

    ghost predicate Valid()
      reads this
    {
      Unique(Ids(nodes)) && forall x :: x in Ids(nodes) ==> x < nextId
    }

    method FindMatches(s: Setting) returns (matches: seq<Prop>)
      ensures matches == Matches(nodes, s)
    {
      matches := [];
      assert nodes[0..] == nodes;
      for i := 0 to |nodes|
        invariant matches + Matches(nodes[i..], s) == Matches(nodes, s)
      {
        assert nodes[i..][1..] == nodes[i + 1..];
        if OnPath(nodes[i], s) {
          matches := matches + NamedIn(nodes[i].children, s);
        }
      }
    }

    /** Looks the duplicate up in the items and takes it out of the first that holds it. */
    method RemoveDuplicate(id: nat)
      modifies this`nodes
      ensures nodes == RemoveById(old(nodes), id)
    {
      for i := 0 to |nodes|
        invariant nodes == old(nodes) && forall j :: 0 <= j < i ==> id !in IdsAt(nodes[j])
      {
        if id in IdsAt(nodes[i]) {
          RemoveAt(nodes, i, id);
          var children := RemoveChild(nodes[i].children, id);
          nodes := nodes[..i] + (if children == [] then [] else [nodes[i].(children := children)]) + nodes[i + 1..];
          return;
        }
      }
      RemoveAbsent(nodes, id);
    }

    /** Upserts one setting and says whether the registry changed. */
    method ApplySetting(s: Setting) returns (changed: bool)
      requires Valid()
      modifies this
      ensures Valid() && nextId == old(nextId) + 1
      ensures nodes == Apply(old(nodes), s, old(nextId))
      ensures changed <==> nodes != old(nodes)
    {
      var matches := FindMatches(s);
      UnchangedExactly(nodes, s, nextId);
      ApplyValid(nodes, s, nextId);
      changed := |matches| != 1 || ValueOf(matches[0].parts) != Some(s.value);
      if matches == [] {
        nodes := nodes + [NewItem(s, nextId)];
      } else {
        SetAndRemoveIsSweep(nodes, s);
        var ids := PropIds(matches);
        nodes := SetById(nodes, ids[0], s.value);
        RemoveDuplicates(ids[1..]);
      }
      nextId := nextId + 1;
    }

    /** The loop over the duplicates. */
    method RemoveDuplicates(ids: seq<nat>)
      modifies this`nodes
      ensures nodes == RemoveAll(old(nodes), ids)
    {
      for i := 0 to |ids|
        invariant RemoveAll(nodes, ids[i..]) == RemoveAll(old(nodes), ids)
      {
        assert ids[i..][1..] == ids[i + 1..];
        RemoveDuplicate(ids[i]);
      }
    }

    /** Applies a list of settings. */
    method ApplySettings(settings: seq<Setting>) returns (changed: bool)
      requires Valid()
      modifies this
      ensures Valid()
      ensures nodes == ApplyAll(old(nodes), settings, old(nextId))
      ensures changed == ReportsChange(old(nodes), settings, old(nextId))
    {
      changed := false;
      assert settings[0..] == settings;
      for i := 0 to |settings|
        invariant Valid()
        invariant ApplyAll(nodes, settings[i..], nextId) == ApplyAll(old(nodes), settings, old(nextId))
        invariant (changed || ReportsChange(nodes, settings[i..], nextId))
                  == ReportsChange(old(nodes), settings, old(nextId))
      {
        assert settings[i..][1..] == settings[i + 1..];
        var now := ApplySetting(settings[i]);
        changed := now || changed;
      }
    }
  }

  lemma ApplyValid(nodes: seq<Node>, s: Setting, id: nat)
    requires Unique(Ids(nodes)) && forall x :: x in Ids(nodes) ==> x < id
    ensures Unique(Ids(Apply(nodes, s, id))) && forall x :: x in Ids(Apply(nodes, s, id)) ==> x <= id
  {
    if Matches(nodes, s) == [] {
      IdsAppend(nodes, [NewItem(s, id)]);
      assert NewItem(s, id).children[1..] == [] && [NewItem(s, id)][1..] == [];
      assert IdsIn(NewItem(s, id).children) == [id] + [] == [id];
      assert Ids([NewItem(s, id)]) == IdsAt(NewItem(s, id)) + [];
      UniqueParts(Ids(nodes), [id]);
    } else {
      SweepIds(nodes, s, false);
    }
  }
}
