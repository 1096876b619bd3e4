/** What an entry keeps of its repeated text and link elements while a document is decoded, and
    that picking from it is the same as picking from all of them. */
module Retention {
  import opened Basics

  /** The Latin-1 white space that strings.TrimSpace trims. */
  predicate IsSpace(c: char) {
    c == ' ' || '\U{0009}' <= c <= '\U{000D}' || c == '\U{0085}' || c == '\U{00A0}'
  }

  function TrimLeft(s: string): (r: string)
    ensures r == "" || !IsSpace(r[0])
  {
    if s != "" && IsSpace(s[0]) then TrimLeft(s[1..]) else s
  }

  function TrimRight(s: string): (r: string)
    ensures r <= s
    ensures r == "" || !IsSpace(r[|r| - 1])
  {
    if s != "" && IsSpace(s[|s| - 1]) then TrimRight(s[..|s| - 1]) else s
  }

  function Trim(s: string): string { TrimRight(TrimLeft(s)) }

  lemma TrimTwice(s: string)
    ensures Trim(Trim(s)) == Trim(s)
  {
    var t := Trim(s);
    assert t == "" || t[0] == TrimLeft(s)[0];
  }

  /** Trimming cuts the white space at both ends and nothing else. */
  lemma {:induction false} TrimIsExact(s: string)
    ensures exists l: nat, r: nat :: l + r <= |s| && CutBy(s, l, r)
    ensures Trim(s) == "" || (!IsSpace(Trim(s)[0]) && !IsSpace(Trim(s)[|Trim(s)| - 1]))
  {
    TrimTwice(s);
    var l := LeftCut(s);
    var r := RightCut(TrimLeft(s));
    assert CutBy(s, l, r);
  }

  ghost predicate CutBy(s: string, l: nat, r: nat)
    requires l + r <= |s|
  {
    && Trim(s) == s[l..|s| - r]
    && (forall i :: 0 <= i < l ==> IsSpace(s[i]))
    && (forall i :: |s| - r <= i < |s| ==> IsSpace(s[i]))
  }

  lemma {:induction false} LeftCut(s: string) returns (l: nat)
    ensures l <= |s| && TrimLeft(s) == s[l..] && forall i :: 0 <= i < l ==> IsSpace(s[i])
  {
    l := 0;
    if s != "" && IsSpace(s[0]) {
      var rest := LeftCut(s[1..]);
      l := rest + 1;
    }
  }

  lemma {:induction false} RightCut(s: string) returns (r: nat)
    ensures r <= |s| && TrimRight(s) == s[..|s| - r] && forall i :: |s| - r <= i < |s| ==> IsSpace(s[i])
  {
    r := 0;
    if s != "" && IsSpace(s[|s| - 1]) {
      var rest := RightCut(s[..|s| - 1]);
      r := rest + 1;
    }
  }

  const RSS10 := "http://purl.org/rss/1.0/"
  const CONTENT := "http://purl.org/rss/1.0/modules/content/"
  const PREFERRED: set<string> := {"", RSS10, ATOM, CONTENT}
  const MAX_CANDIDATES := 8

  /** An element's namespace and its value; a value with no visible text is blank. */
  datatype NsText = NsText(space: string, text: string)

  predicate Preferred(space: string) { space in PREFERRED }

  function Others(kept: seq<NsText>): nat {
    if kept == [] then 0
    else Others(kept[..|kept| - 1]) + if Preferred(kept[|kept| - 1].space) then 0 else 1
  }

  predicate HasSpace(kept: seq<NsText>, space: string) {
    exists k :: 0 <= k < |kept| && kept[k].space == space
  }

  /** nsTexts.UnmarshalXML: the first non-blank value of each namespace, the ones no picker prefers
      up to a cap. */
  function Retain(kept: seq<NsText>, el: NsText): seq<NsText> {
    var text := Trim(el.text);
    if text == "" || HasSpace(kept, el.space) then kept
    else if !Preferred(el.space) && Others(kept) >= MAX_CANDIDATES then kept
    else kept + [NsText(el.space, text)]
  }

  function RetainAll(els: seq<NsText>): seq<NsText> {
    if els == [] then [] else Retain(RetainAll(els[..|els| - 1]), els[|els| - 1])
  }

  class NsTexts {
    var kept: seq<NsText>

    method Unmarshal(el: NsText)
      modifies this
      ensures kept == Retain(old(kept), el)
    {
      var text := Trim(el.text);
      if text == "" {
        return;
      }
      var others, i := 0, 0;
      while i < |kept|
        invariant 0 <= i <= |kept| && kept == old(kept)
        invariant others == Others(kept[..i])
        invariant forall k :: 0 <= k < i ==> kept[k].space != el.space
      {
        if kept[i].space == el.space {
          return;
        }
        assert kept[..i + 1][..i] == kept[..i];
        if !Preferred(kept[i].space) {
          others := others + 1;
        }
        i := i + 1;
      }
      assert kept[..i] == kept;
      if !Preferred(el.space) && others >= MAX_CANDIDATES {
        return;
      }
      kept := kept + [NsText(el.space, text)];
    }
  }

  /** The first non-blank candidate in a namespace, and in any. */
  function FirstIn(cands: seq<NsText>, space: string): string {
    if cands == [] then ""
    else if cands[0].space == space && Trim(cands[0].text) != "" then Trim(cands[0].text)
    else FirstIn(cands[1..], space)
  }

  function FirstAny(cands: seq<NsText>): string {
    if cands == [] then "" else if Trim(cands[0].text) != "" then Trim(cands[0].text) else FirstAny(cands[1..])
  }

  function PickTextPrefer(cands: seq<NsText>, spaces: seq<string>): string {
    if spaces == [] then FirstAny(cands)
    else if FirstIn(cands, spaces[0]) != "" then FirstIn(cands, spaces[0])
    else PickTextPrefer(cands, spaces[1..])
  }

  /** Candidate j is the first of these that is not blank and in the namespace, or in any. */
  ghost predicate IsFirstIn(cands: seq<NsText>, space: string, j: nat) {
    && j < |cands| && cands[j].space == space && Trim(cands[j].text) != ""
    && forall i :: 0 <= i < j && cands[i].space == space ==> Trim(cands[i].text) == ""
  }

  ghost predicate IsFirst(cands: seq<NsText>, j: nat) {
    && j < |cands| && Trim(cands[j].text) != ""
    && forall i :: 0 <= i < j ==> Trim(cands[i].text) == ""
  }

  ghost predicate NoneIn(cands: seq<NsText>, space: string) {
    forall i :: 0 <= i < |cands| && cands[i].space == space ==> Trim(cands[i].text) == ""
  }

  lemma {:induction false} FirstInIs(cands: seq<NsText>, space: string, j: nat)
    ensures IsFirstIn(cands, space, j) ==> FirstIn(cands, space) == Trim(cands[j].text)
    ensures NoneIn(cands, space) ==> FirstIn(cands, space) == ""
  {
    hide Trim;
    if cands != [] {
      FirstInIs(cands[1..], space, if j == 0 then 0 else j - 1);
    }
  }

  lemma {:induction false} FirstAnyIs(cands: seq<NsText>, j: nat)
    ensures IsFirst(cands, j) ==> FirstAny(cands) == Trim(cands[j].text)
    ensures (forall i :: 0 <= i < |cands| ==> Trim(cands[i].text) == "") ==> FirstAny(cands) == ""
  {
    hide Trim;
    if cands != [] {
      FirstAnyIs(cands[1..], if j == 0 then 0 else j - 1);
    }
  }

  /** The pick is the first text of the earliest preferred namespace that has one. */
  lemma {:induction false} PicksTheMostPreferred(cands: seq<NsText>, spaces: seq<string>, k: nat, j: nat)
    requires k < |spaces| && IsFirstIn(cands, spaces[k], j)
    requires forall earlier :: 0 <= earlier < k ==> NoneIn(cands, spaces[earlier])
    ensures PickTextPrefer(cands, spaces) == Trim(cands[j].text)
  {
    hide Trim;
    hide IsFirstIn;
    hide NoneIn;
    FirstInIs(cands, spaces[0], j);
    if k == 0 {
      assert Trim(cands[j].text) != "" by { FirstIsVisible(cands, spaces[0], j); }
    } else {
      PicksTheMostPreferred(cands, spaces[1..], k - 1, j);
    }
  }

  lemma FirstIsVisible(cands: seq<NsText>, space: string, j: nat)
    requires IsFirstIn(cands, space, j)
    ensures j < |cands| && Trim(cands[j].text) != ""
  {
  }

  /** When no preferred namespace has a text, the pick is the first text there is; it is empty only when
      there is none at all. */
  lemma {:induction false} FallsBackToAny(cands: seq<NsText>, spaces: seq<string>, j: nat)
    requires forall k :: 0 <= k < |spaces| ==> NoneIn(cands, spaces[k])
    ensures IsFirst(cands, j) ==> PickTextPrefer(cands, spaces) == Trim(cands[j].text)
    ensures (forall i :: 0 <= i < |cands| ==> Trim(cands[i].text) == "") ==> PickTextPrefer(cands, spaces) == ""
  {
    hide Trim;
    hide NoneIn;
    FirstAnyIs(cands, j);
    if spaces != [] {
      FirstInIs(cands, spaces[0], j);
      FallsBackToAny(cands, spaces[1..], j);
    }
  }

  lemma {:induction false} FirstOfAppended(cands: seq<NsText>, el: NsText, space: string)
    ensures FirstIn(cands + [el], space) ==
      (if FirstIn(cands, space) != "" then FirstIn(cands, space)
       else if el.space == space then Trim(el.text) else "")
    ensures FirstAny(cands + [el]) == if FirstAny(cands) != "" then FirstAny(cands) else Trim(el.text)
  {
    if cands == [] {
      assert [el][1..] == [];
      assert cands + [el] == [el];
    } else {
      assert (cands + [el])[1..] == cands[1..] + [el];
      FirstOfAppended(cands[1..], el, space);
    }
  }

  /** Kept values are trimmed, not blank, and one per namespace. */
  ghost predicate Tidy(kept: seq<NsText>) {
    && (forall k :: 0 <= k < |kept| ==> kept[k].text != "" && Trim(kept[k].text) == kept[k].text)
    && (forall j, k :: 0 <= j < k < |kept| ==> kept[j].space != kept[k].space)
  }

  lemma {:induction false} TidyFirsts(kept: seq<NsText>, space: string)
    requires Tidy(kept)
    ensures FirstIn(kept, space) != "" <==> HasSpace(kept, space)
    ensures FirstAny(kept) != "" <==> kept != []
  {
    if kept != [] {
      TidyFirsts(kept[1..], space);
      if HasSpace(kept, space) && kept[0].space != space {
        var k :| 0 <= k < |kept| && kept[k].space == space;
        assert kept[1..][k - 1].space == space;
      }
      if HasSpace(kept[1..], space) {
        var k :| 0 <= k < |kept[1..]| && kept[1..][k].space == space;
        assert kept[k + 1].space == space;
      }
    }
  }

  lemma {:induction false} RetainKeepsTidy(kept: seq<NsText>, el: NsText)
    requires Tidy(kept) && Others(kept) <= MAX_CANDIDATES
    ensures Tidy(Retain(kept, el)) && Others(Retain(kept, el)) <= MAX_CANDIDATES
  {
    hide Trim;
    hide Preferred;
    TrimTwice(el.text);
    var added := NsText(el.space, Trim(el.text));
    assert (kept + [added])[..|kept|] == kept;
  }

  /** Every visible text's namespace is kept, unless no picker prefers it and eight such are kept. */
  lemma {:induction false} NothingElseIsDropped(els: seq<NsText>, j: nat)
    requires j < |els| && Trim(els[j].text) != ""
    ensures HasSpace(RetainAll(els), els[j].space) || (!Preferred(els[j].space) && Others(RetainAll(els)) >= 8)
  {
    hide Trim;
    hide Preferred;
    var front, el := els[..|els| - 1], els[|els| - 1];
    var kept := RetainAll(front);
    assert RetainAll(els) == Retain(kept, el);
    assert (kept + [NsText(el.space, Trim(el.text))])[..|kept|] == kept;
    if j < |front| {
      NothingElseIsDropped(front, j);
      if k :| 0 <= k < |kept| && kept[k].space == els[j].space {
        assert RetainAll(els)[k].space == els[j].space;
      }
    } else if RetainAll(els) != kept {
      assert RetainAll(els)[|kept|].space == el.space;
    }
  }

  /** Retaining an element changes a pick as appending it to the full list would. */
  lemma {:induction false} RetainIsLikeAppending(kept: seq<NsText>, el: NsText, space: string)
    requires Tidy(kept) && Others(kept) <= MAX_CANDIDATES && Preferred(space)
    ensures FirstIn(Retain(kept, el), space) == FirstIn(kept + [el], space)
    ensures FirstAny(Retain(kept, el)) == FirstAny(kept + [el])
  {
    hide Trim;
    hide Tidy;
    hide Preferred;
    TrimTwice(el.text);
    FirstOfAppended(kept, el, space);
    FirstOfAppended(kept, NsText(el.space, Trim(el.text)), space);
    TidyFirsts(kept, space);
    TidyFirsts(kept, el.space);
    hide FirstIn;
    hide FirstAny;
  }

  lemma {:induction false} RetentionIsExact(els: seq<NsText>, space: string)
    requires Preferred(space)
    ensures Tidy(RetainAll(els)) && Others(RetainAll(els)) <= MAX_CANDIDATES
    ensures FirstIn(RetainAll(els), space) == FirstIn(els, space)
    ensures FirstAny(RetainAll(els)) == FirstAny(els)
  {
    if els != [] {
      var front, el := els[..|els| - 1], els[|els| - 1];
      assert els == front + [el];
      RetentionIsExact(front, space);
      RetainKeepsTidy(RetainAll(front), el);
      RetainIsLikeAppending(RetainAll(front), el, space);
      FirstOfAppended(front, el, space);
      FirstOfAppended(RetainAll(front), el, space);
      hide FirstIn;
      hide FirstAny;
      hide Others;
      hide Tidy;
      hide Preferred;
      hide Retain;
    }
  }

  /** Picking a text from what was retained is picking it from every element of the document, for
      any order of preferred namespaces. */
  lemma {:induction false} PickingFromRetainedIsExact(els: seq<NsText>, spaces: seq<string>)
    requires forall s :: s in spaces ==> Preferred(s)
    ensures PickTextPrefer(RetainAll(els), spaces) == PickTextPrefer(els, spaces)
  {
    RetentionIsExact(els, if spaces == [] then "" else spaces[0]);
    if spaces != [] {
      PickingFromRetainedIsExact(els, spaces[1..]);
    }
  }

  /** The preferred namespaces among the kept ones. */
  function PreferredSpaces(kept: seq<NsText>): set<string> {
    if kept == [] then {}
    else
      var last := kept[|kept| - 1].space;
      PreferredSpaces(kept[..|kept| - 1]) + if Preferred(last) then {last} else {}
  }

  lemma {:induction false} SpacesOf(kept: seq<NsText>, space: string)
    ensures space in PreferredSpaces(kept) ==> HasSpace(kept, space) && Preferred(space)
  {
    if kept != [] {
      var front := kept[..|kept| - 1];
      SpacesOf(front, space);
      if space in PreferredSpaces(front) {
        var k :| 0 <= k < |front| && front[k].space == space;
        assert kept[k].space == space;
      }
    }
  }

  lemma {:induction false} CountByNamespace(kept: seq<NsText>)
    requires Tidy(kept)
    ensures |kept| == Others(kept) + |PreferredSpaces(kept)|
    ensures PreferredSpaces(kept) <= PREFERRED
  {
    if kept != [] {
      var front, last := kept[..|kept| - 1], kept[|kept| - 1].space;
      CountByNamespace(front);
      SpacesOf(front, last);
      assert !HasSpace(front, last);
      assert last !in PreferredSpaces(front);
    }
  }

  lemma AtMostTwelveTextsAreKept(els: seq<NsText>)
    ensures |RetainAll(els)| <= 12
  {
    RetentionIsExact(els, "");
    CountByNamespace(RetainAll(els));
    assert |PREFERRED| <= 4;
    SubsetSize(PreferredSpaces(RetainAll(els)), PREFERRED);
  }

  datatype AtomLink = AtomLink(href: string, rel: string, typ: string)

  predicate IsAlternate(l: AtomLink) { l.rel == "" || l.rel == "alternate" }

  predicate IsImageEnclosure(l: AtomLink) { l.rel == "enclosure" && "image/" <= l.typ && Trim(l.href) != "" }

  predicate AnyAlternate(links: seq<AtomLink>) { exists l :: l in links && IsAlternate(l) }

  predicate AnyEnclosure(links: seq<AtomLink>) { exists l :: l in links && IsImageEnclosure(l) }

  /** atomLinks.UnmarshalXML: the first link, the first alternate and the first image enclosure. */
  function RetainLink(kept: seq<AtomLink>, l: AtomLink): seq<AtomLink> {
    if kept == [] || (!AnyAlternate(kept) && IsAlternate(l)) || (!AnyEnclosure(kept) && IsImageEnclosure(l))
    then kept + [l] else kept
  }

  function RetainLinks(links: seq<AtomLink>): seq<AtomLink> {
    if links == [] then [] else RetainLink(RetainLinks(links[..|links| - 1]), links[|links| - 1])
  }

  class AtomLinks {
    var kept: seq<AtomLink>

    method Unmarshal(l: AtomLink)
      modifies this
      ensures kept == RetainLink(old(kept), l)
    {
      var hasAlternate, hasEnclosure, i := false, false, 0;
      while i < |kept|
        invariant 0 <= i <= |kept| && kept == old(kept)
        invariant hasAlternate == AnyAlternate(kept[..i]) && hasEnclosure == AnyEnclosure(kept[..i])
      {
        assert kept[..i + 1] == kept[..i] + [kept[i]];
        hasAlternate := hasAlternate || IsAlternate(kept[i]);
        hasEnclosure := hasEnclosure || IsImageEnclosure(kept[i]);
        i := i + 1;
      }
      assert kept[..i] == kept;
      if kept == [] || (!hasAlternate && IsAlternate(l)) || (!hasEnclosure && IsImageEnclosure(l)) {
        kept := kept + [l];
      }
    }
  }

  function FirstAlternate(links: seq<AtomLink>): seq<AtomLink> {
    if links == [] then [] else if IsAlternate(links[0]) then [links[0]] else FirstAlternate(links[1..])
  }

  function FirstEnclosure(links: seq<AtomLink>): seq<AtomLink> {
    if links == [] then [] else if IsImageEnclosure(links[0]) then [links[0]] else FirstEnclosure(links[1..])
  }

  function PrimaryLink(links: seq<AtomLink>): string {
    if FirstAlternate(links) != [] then FirstAlternate(links)[0].href
    else if links != [] then links[0].href else ""
  }

  function EnclosureImage(links: seq<AtomLink>): string {
    if FirstEnclosure(links) != [] then Trim(FirstEnclosure(links)[0].href) else ""
  }

  /** The primary link is the first whose rel says alternate or nothing, and without one the first link;
      the image is that of the first enclosure of an image type with an address. */
  lemma {:induction false} FirstOfItsKind(links: seq<AtomLink>, j: nat)
    requires j < |links|
    ensures (links[j].rel == "" || links[j].rel == "alternate")
            && (forall i :: 0 <= i < j ==> links[i].rel != "" && links[i].rel != "alternate") ==>
      FirstAlternate(links) == [links[j]] && PrimaryLink(links) == links[j].href
    ensures (forall i :: 0 <= i < |links| ==> links[i].rel != "" && links[i].rel != "alternate") ==>
      FirstAlternate(links) == [] && PrimaryLink(links) == links[0].href
    ensures links[j].rel == "enclosure" && "image/" <= links[j].typ && Trim(links[j].href) != ""
            && (forall i :: 0 <= i < j ==> !IsImageEnclosure(links[i])) ==>
      FirstEnclosure(links) == [links[j]] && EnclosureImage(links) == Trim(links[j].href)
    ensures IsImageEnclosure(links[j]) ==>
      links[j].rel == "enclosure" && "image/" <= links[j].typ && Trim(links[j].href) != ""
    ensures (forall i :: 0 <= i < |links| ==> !IsImageEnclosure(links[i])) ==>
      FirstEnclosure(links) == [] && EnclosureImage(links) == ""
  {
    hide Trim;
    if |links| > 1 {
      FirstOfItsKind(links[1..], if j == 0 then 0 else j - 1);
    } else {
      assert links[1..] == [];
    }
  }

  lemma {:induction false} FirstLinkOfAppended(links: seq<AtomLink>, l: AtomLink)
    ensures FirstAlternate(links + [l]) ==
      if FirstAlternate(links) != [] then FirstAlternate(links) else if IsAlternate(l) then [l] else []
    ensures FirstEnclosure(links + [l]) ==
      if FirstEnclosure(links) != [] then FirstEnclosure(links) else if IsImageEnclosure(l) then [l] else []
    ensures (FirstAlternate(links) != [] <==> AnyAlternate(links)) && (FirstEnclosure(links) != [] <==> AnyEnclosure(links))
  {
    if links == [] {
      assert [l][1..] == [];
      assert links + [l] == [l];
    } else {
      assert (links + [l])[1..] == links[1..] + [l];
      FirstLinkOfAppended(links[1..], l);
      assert links == [links[0]] + links[1..];
    }
  }

  /** How many links the three reasons to keep one account for. */
  function Reasons(kept: seq<AtomLink>): nat {
    (if kept == [] then 0 else 1) + (if AnyAlternate(kept) then 1 else 0) + (if AnyEnclosure(kept) then 1 else 0)
  }

  /** What picking a link looks at is the same in both lists. */
  ghost predicate SameFirsts(links: seq<AtomLink>, kept: seq<AtomLink>) {
    && FirstAlternate(kept) == FirstAlternate(links) && FirstEnclosure(kept) == FirstEnclosure(links)
    && (kept == [] <==> links == []) && (links != [] ==> kept[0] == links[0])
  }

  lemma RetainingKeepsFirsts(links: seq<AtomLink>, kept: seq<AtomLink>, l: AtomLink)
    requires SameFirsts(links, kept)
    ensures SameFirsts(links + [l], RetainLink(kept, l))
  {
    hide IsAlternate;
    hide IsImageEnclosure;
    hide AnyAlternate;
    hide AnyEnclosure;
    hide FirstAlternate;
    hide FirstEnclosure;
    FirstLinkOfAppended(links, l);
    FirstLinkOfAppended(kept, l);
  }

  lemma AnyOfAppended(kept: seq<AtomLink>, l: AtomLink)
    ensures AnyAlternate(kept + [l]) <==> AnyAlternate(kept) || IsAlternate(l)
    ensures AnyEnclosure(kept + [l]) <==> AnyEnclosure(kept) || IsImageEnclosure(l)
  {
    hide IsAlternate;
    hide IsImageEnclosure;
    assert forall x :: x in kept + [l] <==> x in kept || x == l;
  }

  lemma RetainingHasAReason(kept: seq<AtomLink>, l: AtomLink)
    requires |kept| <= Reasons(kept)
    ensures |RetainLink(kept, l)| <= Reasons(RetainLink(kept, l))
  {
    hide IsAlternate;
    hide IsImageEnclosure;
    hide AnyAlternate;
    hide AnyEnclosure;
    AnyOfAppended(kept, l);
  }

  lemma {:induction false} RetainedLinksAreSound(links: seq<AtomLink>)
    ensures SameFirsts(links, RetainLinks(links)) && |RetainLinks(links)| <= Reasons(RetainLinks(links))
  {
    if links != [] {
      hide SameFirsts;
      hide RetainLink;
      hide Reasons;
      var front, l := links[..|links| - 1], links[|links| - 1];
      assert links == front + [l];
      RetainedLinksAreSound(front);
      RetainingKeepsFirsts(front, RetainLinks(front), l);
      RetainingHasAReason(RetainLinks(front), l);
    }
  }

  /** The primary link and the image are the same on the at most three links kept as on all. */
  lemma RetainedLinksAreEnough(links: seq<AtomLink>)
    ensures PrimaryLink(RetainLinks(links)) == PrimaryLink(links)
    ensures EnclosureImage(RetainLinks(links)) == EnclosureImage(links)
    ensures |RetainLinks(links)| <= 3
    ensures FirstAlternate(RetainLinks(links)) == FirstAlternate(links)
    ensures FirstEnclosure(RetainLinks(links)) == FirstEnclosure(links)
    ensures (RetainLinks(links) == [] <==> links == []) && (links != [] ==> RetainLinks(links)[0] == links[0])
  {
    hide FirstAlternate;
    hide FirstEnclosure;
    hide RetainLinks;
    hide Trim;
    RetainedLinksAreSound(links);
  }
}
