/** Fit: a message trimmed to Discord's length limits. A string is its runes. */
module Fitting {
  import opened Basics

  const MAX_CONTENT := 2000
  const MAX_TITLE := 256
  const MAX_DESCRIPTION := 4096
  const MAX_AUTHOR := 256
  const MAX_FOOTER := 2048
  const MAX_USERNAME := 80
  const MAX_THREAD_NAME := 100
  const MAX_EMBED_TOTAL := 6000

  datatype Embed = Embed(title: string, description: string, author: string, footer: string, url: string)

  datatype Message = Message(content: string, username: string, threadName: string, embed: Option<Embed>, threadId: string)

  /** Length of a rune in UTF-8. */
  function Width(c: char): nat {
    if c < '\U{0080}' then 1 else if c < '\U{0800}' then 2 else if c < '\U{10000}' then 3 else 4
  }

  function Bytes(s: string): (n: nat)
    ensures n >= |s|
  {
    if s == "" then 0 else Bytes(s[..|s| - 1]) + Width(s[|s| - 1])
  }

  const ELLIPSIS := "\U{2026}"

  function Truncate(s: string, max: int): (string, nat) {
    if Bytes(s) <= max then (s, 0)
    else if |s| <= max then (s, 0)
    else
      var overflow := |s| - max;
      if max <= 0 then ("", overflow)
      else if max == 1 then (s[..1], overflow)
      else (s[..max - 1] + ELLIPSIS, overflow)
  }

  /** clampEmbedTotalLength. */
  function ClampTotal(e: Embed): (Embed, nat) {
    var total := |e.title| + |e.description| + |e.footer| + |e.author|;
    if total <= MAX_EMBED_TOTAL then (e, 0)
    else
      var left := |e.description| - (total - MAX_EMBED_TOTAL);
      (e.(description := Truncate(e.description, if left < 0 then 0 else left).0),
       if total - MAX_EMBED_TOTAL < |e.description| then total - MAX_EMBED_TOTAL else |e.description|)
  }

  function FitFields(e: Embed): (Embed, nat) {
    var title := Truncate(e.title, MAX_TITLE);
    var description := Truncate(e.description, MAX_DESCRIPTION);
    var author := Truncate(e.author, MAX_AUTHOR);
    var footer := Truncate(e.footer, MAX_FOOTER);
    (Embed(title.0, description.0, author.0, footer.0, e.url), title.1 + description.1 + author.1 + footer.1)
  }

  function FitEmbed(e: Embed): (Embed, nat) {
    var fields := FitFields(e);
    var clamped := ClampTotal(fields.0);
    (clamped.0, fields.1 + clamped.1)
  }

  function Fit(m: Message): (Message, nat) {
    var content := Truncate(m.content, MAX_CONTENT);
    var username := Truncate(m.username, MAX_USERNAME);
    var embed := if m.embed.None? then (None, 0)
                 else var fitted := FitEmbed(m.embed.value); (Some(fitted.0), fitted.1);
    var threadName := Truncate(m.threadName, MAX_THREAD_NAME);
    (Message(content.0, username.0, threadName.0, embed.0, m.threadId),
     content.1 + username.1 + embed.1 + threadName.1)
  }

  function EmbedRunes(e: Embed): nat { |e.title| + |e.description| + |e.author| + |e.footer| }

  function Runes(m: Message): nat {
    |m.content| + |m.username| + |m.threadName| + if m.embed.None? then 0 else EmbedRunes(m.embed.value)
  }

  /** The byte-length shortcut never changes the result: bytes are at least runes. Truncation keeps
      a text that fits; otherwise it leaves exactly max runes, the last of them an ellipsis unless it
      is the only one, and reports the rest as cut. A negative max is reported as cut too. */
  lemma TruncateIsExact(s: string, max: int)
    ensures var (r, cut) := Truncate(s, max);
      && (|s| <= max ==> r == s && cut == 0)
      && (|s| > max > 1 ==> |r| == max && r[..max - 1] == s[..max - 1] && r[max - 1..] == ELLIPSIS)
      && (|s| > max == 1 ==> r == s[..1])
      && (max <= 0 && |s| > max ==> r == "" && cut == |s| - max)
      && (max >= 0 ==> |r| <= max && |r| + cut == |s|)
  {
  }

  predicate EmbedFits(e: Embed) {
    && |e.title| <= MAX_TITLE && |e.description| <= MAX_DESCRIPTION
    && |e.author| <= MAX_AUTHOR && |e.footer| <= MAX_FOOTER
    && EmbedRunes(e) <= MAX_EMBED_TOTAL
  }

  predicate Fits(m: Message) {
    && |m.content| <= MAX_CONTENT && |m.username| <= MAX_USERNAME && |m.threadName| <= MAX_THREAD_NAME
    && (m.embed.Some? ==> EmbedFits(m.embed.value))
  }

  /** An embed's fields and their total fit; no rune goes missing unreported; and when the total is
      what had to be cut, exactly the limit is left, at least 3440 runes of it description. */
  lemma FitEmbedIsExact(e: Embed)
    ensures var (fitted, cut) := FitEmbed(e);
      && EmbedFits(fitted) && fitted.url == e.url
      && EmbedRunes(fitted) + cut == EmbedRunes(e)
      && (EmbedRunes(FitFields(e).0) > MAX_EMBED_TOTAL ==>
            EmbedRunes(fitted) == MAX_EMBED_TOTAL && |fitted.description| >= 3440)
      && (EmbedFits(e) ==> fitted == e)
  {
    TruncateIsExact(e.title, MAX_TITLE);
    TruncateIsExact(e.description, MAX_DESCRIPTION);
    TruncateIsExact(e.author, MAX_AUTHOR);
    TruncateIsExact(e.footer, MAX_FOOTER);
    var fields := FitFields(e).0;
    var left := |fields.description| - (EmbedRunes(fields) - MAX_EMBED_TOTAL);
    TruncateIsExact(fields.description, if left < 0 then 0 else left);
    hide Truncate;
  }

  /** Fit conserves runes, meets every limit, leaves a message that fits alone, and so is
      idempotent with nothing trimmed the second time. */
  lemma FitIsExact(m: Message)
    ensures var (fitted, cut) := Fit(m);
      && Fits(fitted) && Runes(fitted) + cut == Runes(m)
      && (Fits(m) ==> fitted == m && cut == 0)
      && Fit(fitted) == (fitted, 0)
  {
    FitConserves(m);
    FitConserves(Fit(m).0);
  }

  /** s cut to max runes: itself when it fits, and otherwise its first runes and an ellipsis. */
  ghost predicate CutTo(s: string, max: nat, r: string) {
    && |r| == (if |s| <= max then |s| else max)
    && (|s| <= max ==> r == s)
    && (|s| > max > 1 ==> r[..max - 1] == s[..max - 1] && r[max - 1] == '\U{2026}')
  }

  /** Nothing more is cut than the limits ask for: every field keeps what fits of it, and only a
      description gives way to the limit of the whole embed. */
  lemma FitCutsNoMore(m: Message)
    ensures var fitted := Fit(m).0;
      && CutTo(m.content, 2000, fitted.content) && CutTo(m.username, 80, fitted.username)
      && CutTo(m.threadName, 100, fitted.threadName) && fitted.threadId == m.threadId
      && (m.embed.Some? <==> fitted.embed.Some?)
    ensures m.embed.Some? ==>
      var e, f := m.embed.value, Fit(m).0.embed.value;
      var left := 6000 - |f.title| - |f.author| - |f.footer|;
      && CutTo(e.title, 256, f.title) && CutTo(e.author, 256, f.author) && CutTo(e.footer, 2048, f.footer)
      && CutTo(e.description, if left < 4096 then left else 4096, f.description) && f.url == e.url
  {
    hide Truncate;
    hide CutTo;
    hide FitEmbed;
    TruncateCuts(m.content, MAX_CONTENT);
    TruncateCuts(m.username, MAX_USERNAME);
    TruncateCuts(m.threadName, MAX_THREAD_NAME);
    if m.embed.Some? {
      EmbedCutsNoMore(m.embed.value);
    }
  }

  lemma EmbedCutsNoMore(e: Embed)
    ensures var f := FitEmbed(e).0;
      var left := 6000 - |f.title| - |f.author| - |f.footer|;
      && CutTo(e.title, 256, f.title) && CutTo(e.author, 256, f.author) && CutTo(e.footer, 2048, f.footer)
      && left >= 3440 && CutTo(e.description, if left < 4096 then left else 4096, f.description) && f.url == e.url
  {
    hide Truncate;
    hide CutTo;
    hide FitFields;
    hide FitEmbed;
    TruncateCuts(e.title, MAX_TITLE);
    TruncateCuts(e.author, MAX_AUTHOR);
    TruncateCuts(e.footer, MAX_FOOTER);
    TruncateCuts(e.description, MAX_DESCRIPTION);
    FieldsAreCut(e);
    CutLengths(e);
    var fields := FitFields(e).0;
    var left := MAX_EMBED_TOTAL - |fields.title| - |fields.author| - |fields.footer|;
    TruncateCuts(fields.description, left);
    CutTwice(e.description, MAX_DESCRIPTION, fields.description, left);
    TotalIsClamped(e);
  }

  lemma FieldsAreCut(e: Embed)
    ensures var fields := FitFields(e).0;
      && fields.title == Truncate(e.title, MAX_TITLE).0 && fields.description == Truncate(e.description, MAX_DESCRIPTION).0
      && fields.author == Truncate(e.author, MAX_AUTHOR).0 && fields.footer == Truncate(e.footer, MAX_FOOTER).0
      && fields.url == e.url
  {
    hide Truncate;
  }

  /** Only the description gives way to the total, and only when there is too much of it. */
  lemma TotalIsClamped(e: Embed)
    ensures var fields := FitFields(e).0;
      var left := MAX_EMBED_TOTAL - |fields.title| - |fields.author| - |fields.footer|;
      left >= 0 ==>
        FitEmbed(e).0 ==
          if |fields.description| <= left then fields else fields.(description := Truncate(fields.description, left).0)
  {
    hide Truncate;
    hide FitFields;
  }

  lemma CutLengths(e: Embed)
    ensures var fields := FitFields(e).0;
      |fields.title| <= MAX_TITLE && |fields.author| <= MAX_AUTHOR && |fields.footer| <= MAX_FOOTER
  {
    TruncateCuts(e.title, MAX_TITLE);
    TruncateCuts(e.author, MAX_AUTHOR);
    TruncateCuts(e.footer, MAX_FOOTER);
    hide Truncate;
  }

  /** A cut within a cut is a cut of the original; one that does not bite leaves the first. */
  lemma CutTwice(s: string, max: nat, once: string, left: nat)
    requires max > 1 && left > 1 && CutTo(s, max, once)
    ensures forall r :: CutTo(once, left, r) ==> CutTo(s, if left < max then left else max, r)
    ensures |once| <= left ==> CutTo(s, if left < max then left else max, once)
  {
    forall r | CutTo(once, left, r) ensures CutTo(s, if left < max then left else max, r) {
      if |s| > max > left {
        assert once[..left - 1] == once[..max - 1][..left - 1] && s[..left - 1] == s[..max - 1][..left - 1];
      }
    }
  }

  lemma TruncateCuts(s: string, max: nat)
    ensures CutTo(s, max, Truncate(s, max).0)
  {
    TruncateIsExact(s, max);
  }

  lemma FitConserves(m: Message)
    ensures var (fitted, cut) := Fit(m);
      && Fits(fitted) && Runes(fitted) + cut == Runes(m)
      && (Fits(m) ==> fitted == m && cut == 0)
  {
    TruncateIsExact(m.content, MAX_CONTENT);
    TruncateIsExact(m.username, MAX_USERNAME);
    TruncateIsExact(m.threadName, MAX_THREAD_NAME);
    if m.embed.Some? {
      FitEmbedIsExact(m.embed.value);
    }
    hide Truncate;
    hide FitEmbed;
  }
}
