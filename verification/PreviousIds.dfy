/** The shim behind Entry.PreviousID: when an Atom 1.0 document needs a second, local-name reading
    of its entries, and what that reading changes. */
module PreviousIds {
  import opened Basics
  import opened Identities

  datatype Name = Name(space: string, local: string)

  datatype Node = Element(name: Name, payload: string, children: seq<Node>) | Chars(text: string)

  datatype Token = Start(name: Name) | End | Text(text: string)

  /** The tokens a decoder delivers for a well-formed document. */
  function NodeTokens(n: Node): seq<Token>
    decreases n, 1
  {
    match n
    case Chars(text) => [Text(text)]
    case Element(name, _, children) => [Start(name)] + Tokens(children) + [End]
  }

  function Tokens(nodes: seq<Node>): seq<Token>
    decreases nodes, 0
  {
    if nodes == [] then [] else NodeTokens(nodes[0]) + Tokens(nodes[1..])
  }

  predicate IdentityName(local: string) {
    local == "id" || local == "link" || local == "updated" || local == "published"
  }

  predicate IsAtomEntry(n: Node) {
    n.Element? && n.name == Name(ATOM, "entry")
  }

  /** An element the two readings see differently. */
  predicate Foreign(n: Node) {
    n.Element? && n.name.space != ATOM && IdentityName(n.name.local)
  }

  /** The streaming check from depth and inAtomEntry on; running out of tokens is an error. */
  function Check(ts: seq<Token>, depth: int, inAtomEntry: bool): bool {
    if ts == [] then true
    else match ts[0]
      case Text(_) => Check(ts[1..], depth, inAtomEntry)
      case End => if depth - 1 == 0 then false else Check(ts[1..], depth - 1, inAtomEntry)
      case Start(name) =>
        if depth + 1 == 2 then Check(ts[1..], depth + 1, name == Name(ATOM, "entry"))
        else if depth + 1 == 3 && inAtomEntry && name.space != ATOM && IdentityName(name.local) then true
        else Check(ts[1..], depth + 1, inAtomEntry)
  }

  method MayReadIdentityDifferently(ts: seq<Token>) returns (may: bool)
    ensures may == Check(ts, 0, false)
  {
    var depth, inAtomEntry, i := 0, false, 0;
    while true
      invariant 0 <= i <= |ts|
      invariant Check(ts, 0, false) == Check(ts[i..], depth, inAtomEntry)
      decreases |ts| - i
    {
      if i == |ts| {
        return true;
      }
      assert ts[i..][1..] == ts[i + 1..];
      match ts[i] {
        case Start(name) =>
          depth := depth + 1;
          if depth == 2 {
            inAtomEntry := name == Name(ATOM, "entry");
          } else if depth == 3 && inAtomEntry && name.space != ATOM && IdentityName(name.local) {
            return true;
          }
        case End =>
          depth := depth - 1;
          if depth == 0 {
            return false;
          }
        case Text(_) =>
      }
      i := i + 1;
    }
  }

  /** Below the children of entries, nothing changes the check's answer. */
  lemma {:induction false} DeepNodesDoNotMatter(nodes: seq<Node>, rest: seq<Token>, depth: int, inAtomEntry: bool)
    requires depth >= 3
    ensures Check(Tokens(nodes) + rest, depth, inAtomEntry) == Check(rest, depth, inAtomEntry)
    decreases nodes, 0
  {
    if nodes == [] {
      assert Tokens(nodes) + rest == rest;
    } else {
      var after := Tokens(nodes[1..]) + rest;
      assert Tokens(nodes) + rest == NodeTokens(nodes[0]) + after;
      DeepNodeDoesNotMatter(nodes[0], after, depth, inAtomEntry);
      DeepNodesDoNotMatter(nodes[1..], rest, depth, inAtomEntry);
    }
  }

  lemma {:induction false} DeepNodeDoesNotMatter(n: Node, rest: seq<Token>, depth: int, inAtomEntry: bool)
    requires depth >= 3
    ensures Check(NodeTokens(n) + rest, depth, inAtomEntry) == Check(rest, depth, inAtomEntry)
    decreases n, 1
  {
    match n
    case Chars(text) => assert ([Text(text)] + rest)[1..] == rest;
    case Element(name, _, children) =>
      var inside := Tokens(children) + ([End] + rest);
      assert (NodeTokens(n) + rest)[1..] == inside;
      DeepNodesDoNotMatter(children, [End] + rest, depth + 1, inAtomEntry);
      assert ([End] + rest)[1..] == rest;
  }

  /** One child of a child of the root: the check stops at a foreign identity element. */
  lemma ChecksOneElement(n: Node, after: seq<Token>, inAtomEntry: bool)
    ensures Check(NodeTokens(n) + after, 2, inAtomEntry) == ((inAtomEntry && Foreign(n)) || Check(after, 2, inAtomEntry))
  {
    match n
    case Chars(text) => assert ([Text(text)] + after)[1..] == after;
    case Element(name, _, children) =>
      assert (NodeTokens(n) + after)[1..] == Tokens(children) + ([End] + after);
      DeepNodesDoNotMatter(children, [End] + after, 3, inAtomEntry);
      assert ([End] + after)[1..] == after;
  }

  lemma {:induction false} ChecksAnEntry(nodes: seq<Node>, rest: seq<Token>, inAtomEntry: bool)
    ensures Check(Tokens(nodes) + rest, 2, inAtomEntry) ==
      ((inAtomEntry && exists n :: n in nodes && Foreign(n)) || Check(rest, 2, inAtomEntry))
  {
    hide Check;
    hide Foreign;
    hide NodeTokens;
    if nodes == [] {
      assert Tokens(nodes) + rest == rest;
    } else {
      var n, after := nodes[0], Tokens(nodes[1..]) + rest;
      assert Tokens(nodes) + rest == NodeTokens(n) + after;
      ChecksOneElement(n, after, inAtomEntry);
      ChecksAnEntry(nodes[1..], rest, inAtomEntry);
      assert (exists m :: m in nodes && Foreign(m)) <==> Foreign(n) || exists m :: m in nodes[1..] && Foreign(m);
    }
  }

  /** An Atom entry with a foreign identity element among its children. */
  predicate ReadsDifferently(n: Node) {
    IsAtomEntry(n) && exists c :: c in n.children && Foreign(c)
  }

  lemma ChecksAChild(n: Node, after: seq<Token>, inAtomEntry: bool)
    ensures Check(NodeTokens(n) + after, 1, inAtomEntry) ==
      (ReadsDifferently(n) || Check(after, 1, if n.Element? then IsAtomEntry(n) else inAtomEntry))
  {
    match n
    case Chars(text) => assert ([Text(text)] + after)[1..] == after;
    case Element(name, _, children) =>
      assert (NodeTokens(n) + after)[1..] == Tokens(children) + ([End] + after);
      ChecksAnEntry(children, [End] + after, IsAtomEntry(n));
      assert ([End] + after)[1..] == after;
  }

  lemma {:induction false} ChecksTheRoot(nodes: seq<Node>, rest: seq<Token>, inAtomEntry: bool)
    requires rest != [] && rest[0] == End
    ensures Check(Tokens(nodes) + rest, 1, inAtomEntry) == exists n :: n in nodes && ReadsDifferently(n)
  {
    if nodes == [] {
      assert Tokens(nodes) + rest == rest;
    } else {
      hide ReadsDifferently;
      hide Check;
      var n, after := nodes[0], Tokens(nodes[1..]) + rest;
      assert Tokens(nodes) + rest == NodeTokens(n) + after;
      ChecksAChild(n, after, inAtomEntry);
      ChecksTheRoot(nodes[1..], rest, if n.Element? then IsAtomEntry(n) else inAtomEntry);
      assert (exists m :: m in nodes && ReadsDifferently(m)) <==>
             ReadsDifferently(n) || exists m :: m in nodes[1..] && ReadsDifferently(m);
    }
  }

  /** On every well-formed document the streaming check is exact: it answers true exactly when some
      Atom entry of the root has an identity element outside Atom's namespace. */
  lemma StreamingCheckIsExact(root: Node, trailing: seq<Token>)
    requires root.Element?
    ensures Check(NodeTokens(root) + trailing, 0, false) == exists n :: n in root.children && ReadsDifferently(n)
    ensures forall n :: ReadsDifferently(n) <==>
      && n.Element? && n.name == Name("http://www.w3.org/2005/Atom", "entry")
      && exists c :: c in n.children && c.Element? && c.name.space != "http://www.w3.org/2005/Atom"
           && c.name.local in {"id", "link", "updated", "published"}
  {
    assert (NodeTokens(root) + trailing)[1..] == Tokens(root.children) + ([End] + trailing);
    ChecksTheRoot(root.children, [End] + trailing, false);
  }

  /** What an identity is derived from: the identity elements of an entry, in order. */
  datatype Field = Field(local: string, payload: string)

  function NamespaceReading(children: seq<Node>): seq<Field> {
    if children == [] then []
    else
      (if children[0].Element? && children[0].name.space == ATOM && IdentityName(children[0].name.local)
       then [Field(children[0].name.local, children[0].payload)] else [])
      + NamespaceReading(children[1..])
  }

  function LocalNameReading(children: seq<Node>): seq<Field> {
    if children == [] then []
    else
      (if children[0].Element? && IdentityName(children[0].name.local)
       then [Field(children[0].name.local, children[0].payload)] else [])
      + LocalNameReading(children[1..])
  }

  lemma {:induction false} ReadingsAgree(children: seq<Node>)
    requires forall c :: c in children ==> !Foreign(c)
    ensures LocalNameReading(children) == NamespaceReading(children)
  {
    if children != [] {
      assert !Foreign(children[0]);
      ReadingsAgree(children[1..]);
    }
  }

  /** The Atom-namespace entries of the root, up to the cap, which both readings select. */
  function EntriesOf(children: seq<Node>, cap: nat): (r: seq<Node>)
    ensures forall n :: n in r ==> n in children && IsAtomEntry(n)
  {
    if children == [] || cap == 0 then []
    else if IsAtomEntry(children[0]) then [children[0]] + EntriesOf(children[1..], cap - 1)
    else EntriesOf(children[1..], cap)
  }

  datatype Id = Id(text: Text, source: IdSource)

  /** An entry as parsed, with the previous ID the shim reports for it, if any. */
  datatype Parsed = Parsed(id: Id, previous: seq<Id>)

  /** parseAtom and withPreviousIDs over the entries, for any way derive picks an entry's ID from
      its identity elements (the rest of the entry is read the same way both times). */
  function Ids(es: seq<Node>, derive: (Node, seq<Field>) -> Id): seq<Parsed>
    requires forall e :: e in es ==> e.Element?
  {
    seq(|es|, i requires 0 <= i < |es| => Parsed(derive(es[i], NamespaceReading(es[i].children)), []))
  }

  /** What the second reading gives for the entries, each by local name. */
  function SecondReading(es: seq<Node>): seq<seq<Field>>
    requires forall e :: e in es ==> e.Element?
  {
    seq(|es|, i requires 0 <= i < |es| => LocalNameReading(es[i].children))
  }

  /** An entry with the ID the fields of a second reading give it as previous one, if it differs. */
  function Compared(e: Node, fields: seq<Field>, derive: (Node, seq<Field>) -> Id): Parsed
    requires e.Element?
  {
    var current, prior := derive(e, NamespaceReading(e.children)), derive(e, fields);
    Parsed(current, if prior != current then [prior] else [])
  }

  /** applyPreviousIDs: second is the second reading of the document, or None when it did not decode.
      Unless it has the same number of entries, no entry gets a previous ID. */
  method ApplyPreviousIds(es: seq<Node>, second: Option<seq<seq<Field>>>, derive: (Node, seq<Field>) -> Id)
    returns (entries: seq<Parsed>)
    requires forall e :: e in es ==> e.Element?
    ensures second.None? || |second.value| != |es| ==> entries == Ids(es, derive)
    ensures |entries| == |es|
    ensures second.Some? && |second.value| == |es| ==>
      forall i :: 0 <= i < |es| ==> entries[i] == Compared(es[i], second.value[i], derive)
  {
    entries := Ids(es, derive);
    if second.None? || |second.value| != |es| {
      return;
    }
    var prior, i := second.value, 0;
    while i < |es|
      invariant 0 <= i <= |es| == |entries|
      invariant forall k :: 0 <= k < i ==> entries[k] == Compared(es[k], prior[k], derive)
      invariant forall k :: i <= k < |es| ==> entries[k] == Parsed(derive(es[k], NamespaceReading(es[k].children)), [])
    {
      var previous := derive(es[i], prior[i]);
      if previous != entries[i].id {
        entries := entries[i := entries[i].(previous := [previous])];
      }
      i := i + 1;
    }
  }

  /** withPreviousIDs: the second reading is only made when the check asks for it, and yet the entries
      come out as if it always were. */
  method WithPreviousIds(root: Node, trailing: seq<Token>, cap: nat, derive: (Node, seq<Field>) -> Id)
    returns (entries: seq<Parsed>)
    requires root.Element?
    ensures var es := EntriesOf(root.children, cap);
      && |entries| == |es|
      && forall i :: 0 <= i < |es| ==>
        && es[i].Element?
        && entries[i] == Compared(es[i], LocalNameReading(es[i].children), derive)
        && var current, prior := derive(es[i], NamespaceReading(es[i].children)), derive(es[i], LocalNameReading(es[i].children));
           entries[i].id == current && entries[i].previous == if prior == current then [] else [prior]
  {
    var es := EntriesOf(root.children, cap);
    assert forall i :: 0 <= i < |es| ==> es[i] in es && IsAtomEntry(es[i]);
    var may := MayReadIdentityDifferently(NodeTokens(root) + trailing);
    if may {
      entries := ApplyPreviousIds(es, Some(SecondReading(es)), derive);
    } else {
      entries := Ids(es, derive);
      forall i | 0 <= i < |es| ensures entries[i] == Compared(es[i], LocalNameReading(es[i].children), derive) {
        SkippingTheSecondReadingIsSound(root, trailing, derive, es[i]);
      }
    }
  }

  /** The pre-check is sound: when it answers false both readings of every Atom entry see the same
      identity elements, in one order, and comparing them would give no entry a previous ID. */
  lemma SkippingTheSecondReadingIsSound(root: Node, trailing: seq<Token>, derive: (Node, seq<Field>) -> Id, e: Node)
    requires root.Element? && !Check(NodeTokens(root) + trailing, 0, false)
    requires e in root.children && IsAtomEntry(e)
    ensures LocalNameReading(e.children) == NamespaceReading(e.children)
    ensures derive(e, LocalNameReading(e.children)) == derive(e, NamespaceReading(e.children))
  {
    StreamingCheckIsExact(root, trailing);
    assert !ReadsDifferently(e);
    ReadingsAgree(e.children);
  }
}
