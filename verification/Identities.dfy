/** Entry identities: how an entry's ID becomes the identity it is stored and compared under.
    Texts are structured: a text that parses as a URL is its parts, any other text is opaque.
    SHA-256 is modelled by constructors, so digests are injective and never clash with other texts. */
module Identities {

  /** One parameter of a parsed query, with all its values. A query's parameters are listed in
      name order without repeats, which is how a Go url.Values is written back. */
  datatype Param = Param(name: string, values: seq<string>)

  /** A query as it was spelled in the source text, or as re-encoded from its parameters. */
  datatype Query = Spelled(raw: string, params: seq<Param>) | Encoded(params: seq<Param>)

  /** No query at all, which is also how an empty one is written back. */
  const NO_QUERY := Spelled("", [])

  datatype Url = Url(scheme: string, host: string, path: string, query: Query, fragment: string)

  /** What ContentID hashes; published 0 is the zero time. */
  datatype Content = Content(description: string, body: string, image: string, published: int)

  datatype Text = Plain(s: string) | Web(url: Url) | ContentDigest(content: Content)

  const EMPTY: Text := Plain("")

  datatype IdSource = FromGuid | FromLink | FromTitle | FromContent

  datatype Entry = Entry(
    id: Text, idSource: IdSource,
    previousId: Text, previousSource: IdSource,
    content: Content, seqNo: nat)

  /** A stored watermark: none, a whole identity, or the digest of one too long to store. */
  datatype Mark = NoMark | Whole(text: Text) | Digest(of: Text)

  /** A LastSent key: the digest of an identity or of a prefixed stripped identity. */
  datatype Key = NoKey | EntryKey(identity: Text) | StrippedKey(stripped: Text)

  const MAX_STATUS_TEXT_BYTES := 2048

  const TRACKING_PARAMS: set<string> :=
    {"fbclid", "gclid", "mc_eid", "mc_cid", "igshid", "ref_src", "ref", "mkt_tok", "_hsenc", "_hsmi", "spm"}

  function LowerChar(c: char): char {
    if 'A' <= c <= 'Z' then c - 'A' + 'a' else c
  }

  function Lower(s: string): (r: string)
    ensures |r| == |s|
    ensures forall i :: 0 <= i < |s| ==> r[i] == LowerChar(s[i])
  {
    if s == "" then "" else [LowerChar(s[0])] + Lower(s[1..])
  }

  lemma LowerIdempotent(s: string)
    ensures Lower(Lower(s)) == Lower(s)
  {
  }

  /** Whether normalization drops a query parameter of this name. */
  predicate Dropped(name: string, keepTarget: bool) {
    var lower := Lower(name);
    !(keepTarget && lower == "ref") && (lower in TRACKING_PARAMS || "utm_" <= lower)
  }

  function Keep(params: seq<Param>, keepTarget: bool): seq<Param> {
    if params == [] then []
    else (if Dropped(params[0].name, keepTarget) then [] else [params[0]]) + Keep(params[1..], keepTarget)
  }

  /** The loop that deletes tracking parameters one at a time. */
  method DeleteTracking(params: seq<Param>, keepTarget: bool) returns (kept: seq<Param>)
    ensures kept == Keep(params, keepTarget)
  {
    hide Dropped;
    hide Keep;
    kept := [];
    var i := 0;
    while i < |params|
      invariant 0 <= i <= |params|
      invariant Keep(params, keepTarget) == kept + Keep(params[i..], keepTarget)
    {
      KeepNext(params, i, keepTarget);
      if !Dropped(params[i].name, keepTarget) {
        kept := kept + [params[i]];
      }
      i := i + 1;
    }
    KeepNext(params, i, keepTarget);
  }

  lemma KeepNext(params: seq<Param>, i: nat, keepTarget: bool)
    requires i <= |params|
    ensures i < |params| ==>
      Keep(params[i..], keepTarget) ==
        (if Dropped(params[i].name, keepTarget) then [] else [params[i]]) + Keep(params[i + 1..], keepTarget)
    ensures i == |params| ==> Keep(params[i..], keepTarget) == []
  {
    if i < |params| {
      assert params[i..][1..] == params[i + 1..];
    }
  }

  function NormalizeQuery(q: Query, keepTarget: bool): Query {
    if q.params == [] then q
    else
      var kept := Keep(q.params, keepTarget);
      if kept == [] then NO_QUERY else Encoded(kept)
  }

  predicate IsHttp(u: Url) {
    Lower(u.scheme) == "http" || Lower(u.scheme) == "https"
  }

  /** normalizeURLIdentity; with keepTarget, fragment and ref survive. */
  function Normalize(id: Text, keepTarget: bool): Text {
    match id
    case Web(u) =>
      if IsHttp(u) then
        Web(Url(Lower(u.scheme), Lower(u.host), u.path, NormalizeQuery(u.query, keepTarget),
                if keepTarget then u.fragment else ""))
      else id
    case _ => id
  }

  /** keep and then strip is the same as strip; with keepTarget == outer it is idempotence. */
  lemma {:induction false} KeepTwice(params: seq<Param>, inner: bool, outer: bool)
    requires outer ==> inner
    ensures Keep(Keep(params, inner), outer) == Keep(params, outer)
  {
    if params != [] {
      var rest := Keep(params[1..], inner);
      KeepTwice(params[1..], inner, outer);
      if Dropped(params[0].name, inner) {
        assert Keep(params, inner) == rest;
      } else {
        var kept := [params[0]] + rest;
        assert Keep(params, inner) == kept && kept[1..] == rest;
      }
    }
  }

  /** Normalizing is idempotent, and stripping an identity that kept its fragment and ref gives
      the same text as stripping the original: what lets a rotated link be recognised. */
  lemma NormalizeTwice(id: Text, inner: bool, outer: bool)
    requires outer ==> inner
    ensures Normalize(Normalize(id, inner), outer) == Normalize(id, outer)
  {
    if id.Web? {
      var u := id.url;
      LowerIdempotent(u.scheme);
      LowerIdempotent(u.host);
      KeepTwice(u.query.params, inner, outer);
    }
  }

  lemma {:induction false} KeepIgnoresTracking(before: seq<Param>, p: Param, after: seq<Param>, keepTarget: bool)
    requires Dropped(p.name, keepTarget)
    ensures Keep(before + [p] + after, keepTarget) == Keep(before + after, keepTarget)
  {
    if before == [] {
      assert before + [p] + after == [p] + after && before + after == after;
      assert ([p] + after)[1..] == after;
    } else {
      assert (before + [p] + after)[1..] == before[1..] + [p] + after;
      assert (before + after)[1..] == before[1..] + after;
      KeepIgnoresTracking(before[1..], p, after, keepTarget);
    }
  }

  /** A query with no parameters is spelled as no query. */
  predicate Plainly(q: Query) { q.params == [] ==> q == NO_QUERY }

  /** Links that differ only in their query normalize to the same text exactly when the parameters
      that are kept agree. */
  lemma SameIdentityIffSameTarget(u: Url, q: Query, keepTarget: bool)
    requires IsHttp(u) && Plainly(u.query) && Plainly(q)
    ensures Normalize(Web(u), keepTarget) == Normalize(Web(u.(query := q)), keepTarget)
      <==> Keep(u.query.params, keepTarget) == Keep(q.params, keepTarget)
  {
    assert Keep([], keepTarget) == [];
  }

  /** Adding a tracking parameter to a link, or dropping one from it, does not change its identity. */
  lemma TrackingChurnIsInvisible(u: Url, before: seq<Param>, p: Param, after: seq<Param>, raw: string, keepTarget: bool)
    requires IsHttp(u) && Plainly(u.query) && u.query.params == before + after && Dropped(p.name, keepTarget)
    ensures Normalize(Web(u.(query := Spelled(raw, before + [p] + after))), keepTarget) == Normalize(Web(u), keepTarget)
  {
    KeepIgnoresTracking(before, p, after, keepTarget);
    SameIdentityIffSameTarget(u, Spelled(raw, before + [p] + after), keepTarget);
  }

  function Identity(e: Entry): Text {
    if e.id == EMPTY then ContentDigest(e.content) else Normalize(e.id, e.idSource == FromLink)
  }

  /** The link identity without fragment and ref, or EMPTY when the ID did not come from a link. */
  function Stripped(e: Entry): Text {
    if e.idSource != FromLink || e.id == EMPTY then EMPTY else Normalize(e.id, false)
  }

  lemma IdentityIsNeverEmpty(e: Entry)
    ensures Identity(e) != EMPTY
  {
  }

  /** The entry as older versions identified it, and whether that differs. */
  function PreviouslyIdentified(e: Entry): (r: (Entry, bool)) {
    if e.previousId == EMPTY then (e, false)
    else (e.(id := e.previousId, idSource := e.previousSource), true)
  }

  /** Two letters that are the same but for case. */
  predicate SameLetter(c: char, d: char) {
    || c == d
    || ('A' <= c <= 'Z' && d == c - 'A' + 'a')
    || ('A' <= d <= 'Z' && c == d - 'A' + 'a')
  }

  predicate EqualFold(a: string, b: string) {
    |a| == |b| && forall i :: 0 <= i < |a| ==> SameLetter(a[i], b[i])
  }

  lemma LowerIffEqualFold(a: string, b: string)
    ensures Lower(a) == Lower(b) <==> EqualFold(a, b)
  {
    if |a| == |b| {
      forall i | 0 <= i < |a| ensures Lower(a)[i] == Lower(b)[i] <==> SameLetter(a[i], b[i]) {
      }
    }
  }

  /** Which parameters are dropped, whatever the case of their letters: the ones sharing tools add,
      with ref among them except in an identity that keeps its target, and all that begin with utm_. */
  lemma DroppedNames(name: string, keepTarget: bool)
    ensures Dropped(name, keepTarget) <==>
      || EqualFold(name, "fbclid") || EqualFold(name, "gclid") || EqualFold(name, "mc_eid") || EqualFold(name, "mc_cid")
      || EqualFold(name, "igshid") || EqualFold(name, "ref_src") || EqualFold(name, "mkt_tok")
      || EqualFold(name, "_hsenc") || EqualFold(name, "_hsmi") || EqualFold(name, "spm")
      || (!keepTarget && EqualFold(name, "ref"))
      || (|name| >= 4 && EqualFold(name[..4], "utm_"))
  {
    hide Lower;
    hide EqualFold;
    LowerNames();
    forall s | s in TRACKING_PARAMS ensures Lower(name) == s <==> EqualFold(name, s) {
      LowerIffEqualFold(name, s);
    }
    if |name| >= 4 {
      LowerIffEqualFold(name[..4], "utm_");
      assert Lower(name)[..4] == Lower(name[..4]);
    }
  }

  lemma NothingToLower(s: string)
    requires forall c :: c in s ==> !('A' <= c <= 'Z')
    ensures Lower(s) == s
  {
    hide Lower;
    forall i | 0 <= i < |s| ensures Lower(s)[i] == s[i] {
      assert s[i] in s;
    }
  }

  lemma LowerNames()
    ensures Lower("fbclid") == "fbclid" && Lower("gclid") == "gclid" && Lower("mc_eid") == "mc_eid"
    ensures Lower("mc_cid") == "mc_cid" && Lower("igshid") == "igshid" && Lower("ref_src") == "ref_src"
    ensures Lower("ref") == "ref" && Lower("mkt_tok") == "mkt_tok" && Lower("_hsenc") == "_hsenc"
    ensures Lower("_hsmi") == "_hsmi" && Lower("spm") == "spm"
    ensures Lower("utm_") == "utm_" && Lower("http") == "http" && Lower("https") == "https"
  {
    hide Lower;
    NothingToLower("fbclid");
    NothingToLower("gclid");
    NothingToLower("mc_eid");
    NothingToLower("mc_cid");
    NothingToLower("igshid");
    NothingToLower("ref_src");
    NothingToLower("ref");
    NothingToLower("mkt_tok");
    NothingToLower("_hsenc");
    NothingToLower("_hsmi");
    NothingToLower("spm");
    NothingToLower("utm_");
    NothingToLower("http");
    NothingToLower("https");
  }

  /** Two links have the same identity exactly when scheme and host agree but for case, the paths agree,
      the parameters that are kept do, and, in an identity that keeps its target, the fragments. */
  lemma SameLinkIff(u: Url, v: Url, keepTarget: bool)
    requires IsHttp(u) && IsHttp(v) && Plainly(u.query) && Plainly(v.query)
    ensures Normalize(Web(u), keepTarget) == Normalize(Web(v), keepTarget) <==>
      && EqualFold(u.scheme, v.scheme) && EqualFold(u.host, v.host) && u.path == v.path
      && Keep(u.query.params, keepTarget) == Keep(v.query.params, keepTarget)
      && (keepTarget ==> u.fragment == v.fragment)
  {
    LowerIffEqualFold(u.scheme, v.scheme);
    LowerIffEqualFold(u.host, v.host);
    hide EqualFold;
    hide Lower;
    assert Keep([], keepTarget) == [];
  }

  /** Entries that only differ in the fragment of their ID are told apart exactly when the IDs are links;
      without fragment and ref they are not. */
  lemma FragmentTellsLinksApart(d: Entry, e: Entry, u: Url, fragment: string)
    requires IsHttp(u) && Plainly(u.query) && fragment != u.fragment && d.idSource == e.idSource
    requires d.id == Web(u) && e.id == Web(u.(fragment := fragment))
    ensures Identity(d) != Identity(e) <==> d.idSource == FromLink
    ensures Stripped(d) == Stripped(e)
  {
    SameLinkIff(u, u.(fragment := fragment), d.idSource == FromLink);
    SameLinkIff(u, u.(fragment := fragment), false);
  }

  /** Text that is no HTTP link is its own identity, and an entry without an ID has that of its content. */
  lemma OtherIdentities(d: Entry, e: Entry)
    ensures e.id != EMPTY && (e.id.Web? ==> !EqualFold(e.id.url.scheme, "http") && !EqualFold(e.id.url.scheme, "https")) ==>
      Identity(e) == e.id
    ensures d.id == EMPTY && e.id == EMPTY ==> (Identity(d) == Identity(e) <==> d.content == e.content)
  {
    hide Lower;
    hide EqualFold;
    LowerNames();
    if e.id.Web? {
      LowerIffEqualFold(e.id.url.scheme, "http");
      LowerIffEqualFold(e.id.url.scheme, "https");
    }
  }

  function QueryLength(params: seq<Param>): nat {
    if params == [] then 0
    else ValuesLength(params[0].name, params[0].values) + QueryLength(params[1..])
  }

  function ValuesLength(name: string, values: seq<string>): nat {
    if values == [] then 0 else |name| + |values[0]| + 2 + ValuesLength(name, values[1..])
  }

  /** Length of a text, for texts whose characters are one byte each. */
  function ByteLength(t: Text): nat {
    match t
    case Plain(s) => |s|
    case ContentDigest(_) => 79
    case Web(u) =>
      |u.scheme| + 3 + |u.host| + |u.path| +
      (if u.query.Spelled? then (if u.query.raw == "" then 0 else 1 + |u.query.raw|) else QueryLength(u.query.params)) +
      (if u.fragment == "" then 0 else 1 + |u.fragment|)
  }

  function Clamp(id: Text): Mark {
    if ByteLength(id) <= MAX_STATUS_TEXT_BYTES then Whole(id) else Digest(id)
  }

  /** A watermark is stored as it is exactly when it has at most 2048 bytes, and different identities
      never share a stored one. */
  lemma ClampFits(a: Text, b: Text)
    ensures Clamp(a) == Whole(a) <==> ByteLength(a) <= 2048
    ensures Clamp(a) == Digest(a) <==> ByteLength(a) > 2048
    ensures Clamp(a) == Clamp(b) <==> a == b
  {
  }
}
