/** lumen/bot/html_emoji.py with `escape_html` of lumen/bot/telegram_text.py: escaping text for Telegram's
    HTML mode while custom-emoji tags survive. Tags are swapped for placeholders, the rest is escaped,
    and the placeholders are swapped back. */
module HtmlEmoji {
  import opened Prelude

  // ------------------------------------------------------------------ the tag

  const NUL := '\0'
  const TAG_OPEN := "<tg-emoji"
  const TAG_ID := "emoji-id=\""
  const TAG_BODY := "\">"
  const TAG_CLOSE := "</tg-emoji>"

  predicate IsDigit(c: char) { '0' <= c <= '9' }

  predicate NotAngle(c: char) { c != '<' }

  predicate NotNul(c: char) { c != NUL }

  /** IGNORECASE: the letter i also matches the dotted capital and the dotless small one. */
  function Fold(c: char): char {
    if c == '\U{130}' || c == '\U{131}' then 'i' else LowerChar(c)
  }

  /** `s` starts with `pat`, up to case. */
  predicate FoldPrefix(s: string, pat: string) {
    |s| >= |pat| && forall i | 0 <= i < |pat| :: Fold(s[i]) == pat[i]
  }

  /** The length of the longest prefix whose characters all satisfy p. */
  function Run(s: string, p: char -> bool): (n: nat)
    ensures n <= |s|
  {
    if s != "" && p(s[0]) then 1 + Run(s[1..], p) else 0
  }

  datatype Tag = Tag(id: string, fallback: string, len: nat)

  /** `_TG_EMOJI_RE` matched at the start of the text. */
  function MatchTag(s: string): (m: Option<Tag>)
    ensures m.Some? ==> 0 < m.value.len <= |s|
  {
    if !FoldPrefix(s, TAG_OPEN) then None
    else
      var gap := s[|TAG_OPEN|..];
      var blanks := Run(gap, IsSpace);
      if blanks == 0 || !FoldPrefix(gap[blanks..], TAG_ID) then None
      else
        var rest := gap[blanks..][|TAG_ID|..];
        var m := MatchRest(rest);
        if m.None? then None else Some(m.value.(len := |TAG_OPEN| + blanks + |TAG_ID| + m.value.len))
  }

  /** The part of the pattern after the opening quote of the id. */
  function MatchRest(s: string): (m: Option<Tag>)
    ensures m.Some? ==> m.value.len <= |s|
  {
    var digits := Run(s, IsDigit);
    if digits == 0 || !FoldPrefix(s[digits..], TAG_BODY) then None
    else
      var body := s[digits..][|TAG_BODY|..];
      var n := Run(body, NotAngle);
      if !FoldPrefix(body[n..], TAG_CLOSE) then None
      else Some(Tag(s[..digits], body[..n], digits + |TAG_BODY| + n + |TAG_CLOSE|))
  }

  function Canonical(id: string, fallback: string): string {
    TAG_OPEN + " " + TAG_ID + id + TAG_BODY + fallback + TAG_CLOSE
  }

  // ------------------------------------------------------------------ protect and restore

  const HOLD_OPEN := "\0TGEMOJI"
  const HOLD_CLOSE := "\0/TGEMOJI"

  function Placeholder(id: string, fallback: string): string {
    HOLD_OPEN + id + "|" + fallback + HOLD_CLOSE
  }

  function Protected(s: string): string
    decreases |s|
  {
    if s == "" then ""
    else
      match MatchTag(s)
      case Some(t) => Placeholder(t.id, t.fallback) + Protected(s[t.len..])
      case None => [s[0]] + Protected(s[1..])
  }

  /** `protect_tg_emoji`: nothing happens to a text without a lower-case opener. */
  function Protect(s: string): string {
    if s == "" || !Contains(s, TAG_OPEN) then s else Protected(s)
  }

  /** The pattern of `restore_tg_emoji` matched at the start of the text. */
  function MatchHold(s: string): (m: Option<Tag>)
    ensures m.Some? ==> 0 < m.value.len <= |s|
  {
    if !(HOLD_OPEN <= s) then None
    else
      var m := MatchHeld(s[|HOLD_OPEN|..]);
      if m.None? then None else Some(m.value.(len := |HOLD_OPEN| + m.value.len))
  }

  function MatchHeld(s: string): (m: Option<Tag>)
    ensures m.Some? ==> m.value.len <= |s|
  {
    var digits := Run(s, IsDigit);
    if digits == 0 || !("|" <= s[digits..]) then None
    else
      var body := s[digits..][1..];
      var n := Run(body, NotNul);
      if !(HOLD_CLOSE <= body[n..]) then None
      else Some(Tag(s[..digits], body[..n], digits + 1 + n + |HOLD_CLOSE|))
  }

  function Restored(s: string): string
    decreases |s|
  {
    if s == "" then ""
    else
      match MatchHold(s)
      case Some(t) => Canonical(t.id, t.fallback) + Restored(s[t.len..])
      case None => [s[0]] + Restored(s[1..])
  }

  function Restore(s: string): string {
    if s == "" || !Contains(s, HOLD_OPEN) then s else Restored(s)
  }

  /** `html.escape(s, quote=False)`. */
  function EscapeChar(c: char): (e: string)
    ensures e != ""
  {
    if c == '&' then "&amp;" else if c == '<' then "&lt;" else if c == '>' then "&gt;" else [c]
  }

  function Escape(s: string): string {
    if s == "" then "" else EscapeChar(s[0]) + Escape(s[1..])
  }

  function EscapeHtml(s: string): string {
    Restore(Escape(Protect(s)))
  }

  // ------------------------------------------------------------------ the loop over the matches

  /** The next match at or after a position, as `finditer` finds it. */
  function NextMatch(s: string, from: nat): (m: Option<(nat, Tag)>)
    requires from <= |s|
    ensures m.Some? ==> from <= m.value.0 < m.value.0 + m.value.1.len <= |s|
    decreases |s| - from
  {
    if from == |s| then None
    else
      match MatchTag(s[from..])
      case Some(t) => Some((from, t))
      case None => NextMatch(s, from + 1)
  }

  lemma OneLonger(s: string, from: nat, to: nat)
    requires from < to <= |s|
    ensures s[from..to] == [s[from]] + s[from + 1..to]
    ensures s[from..|s|] == s[from..] && s[from + 1..|s|] == s[from + 1..]
  {
  }

  lemma {:induction false} ProtectedUpToMatch(s: string, from: nat)
    requires from <= |s|
    ensures match NextMatch(s, from)
            case None => Protected(s[from..]) == s[from..]
            case Some((at, t)) =>
              Protected(s[from..]) == s[from..at] + (Placeholder(t.id, t.fallback) + Protected(s[at + t.len..]))
    decreases |s| - from
  {
    hide MatchTag, Placeholder;
    var tail := s[from..];
    if from < |s| {
      match MatchTag(tail)
      case Some(t) =>
        assert tail[t.len..] == s[from + t.len..];
      case None =>
        ProtectedUpToMatch(s, from + 1);
        assert tail[1..] == s[from + 1..];
        var m := NextMatch(s, from + 1);
        if m.Some? {
          var (at, t) := m.value;
          var more := Placeholder(t.id, t.fallback) + Protected(s[at + t.len..]);
          OneLonger(s, from, at);
          Assoc([s[from]], s[from + 1..at], more);
        } else {
          OneLonger(s, from, |s|);
        }
    }
  }

  method ProtectTgEmoji(text: string) returns (result: string)
    ensures result == Protect(text)
  {
    hide MatchTag, Placeholder, Contains;
    if text == "" || !Contains(text, TAG_OPEN) {
      return text;
    }
    var out := "";
    var last := 0;
    var m := NextMatch(text, 0);
    while m.Some?
      invariant last <= |text| && m == NextMatch(text, last)
      invariant out + Protected(text[last..]) == Protected(text)
      decreases |text| - last
    {
      var (start, t) := m.value;
      ProtectedUpToMatch(text, last);
      hide Protected;
      Associate(out, text[last..start], Placeholder(t.id, t.fallback), Protected(text[start + t.len..]));
      out := out + text[last..start];
      out := out + Placeholder(t.id, t.fallback);
      last := start + t.len;
      m := NextMatch(text, last);
    }
    ProtectedUpToMatch(text, last);
    hide Protected, NextMatch;
    result := out + text[last..];
  }

  lemma Associate(a: string, b: string, c: string, d: string)
    ensures a + (b + (c + d)) == a + b + c + d
  {
  }

  // ------------------------------------------------------------------ what the matchers accept

  predicate All(s: string, p: char -> bool) {
    forall c | c in s :: p(c)
  }

  lemma {:induction false} RunOver(run: string, rest: string, p: char -> bool)
    requires All(run, p) && (rest == "" || !p(rest[0]))
    ensures Run(run + rest, p) == |run|
    ensures (run + rest)[..|run|] == run && (run + rest)[|run|..] == rest
  {
    if run == "" {
      assert run + rest == rest;
    } else {
      assert run[0] in run;
      RunOver(run[1..], rest, p);
      assert (run + rest)[1..] == run[1..] + rest;
    }
  }

  lemma {:induction false} RunIsAll(s: string, p: char -> bool)
    ensures All(s[..Run(s, p)], p)
    ensures Run(s, p) < |s| ==> !p(s[Run(s, p)])
  {
    if s != "" && p(s[0]) {
      RunIsAll(s[1..], p);
      assert s[..Run(s, p)] == [s[0]] + s[1..][..Run(s[1..], p)];
    }
  }

  lemma PrefixOver(o: string, rest: string, pat: string)
    requires |o| == |pat| && FoldPrefix(o, pat)
    ensures FoldPrefix(o + rest, pat) && (o + rest)[|pat|..] == rest
  {
  }

  /** The shape the pattern describes: opener, whitespace, id attribute, fallback without angle bracket,
      closer, the fixed parts in any case. */
  predicate Spells(open: string, blanks: string, attr: string, id: string, body: string, fallback: string,
          close: string) {
    && |open| == |TAG_OPEN| && FoldPrefix(open, TAG_OPEN)
    && blanks != "" && All(blanks, IsSpace)
    && |attr| == |TAG_ID| && FoldPrefix(attr, TAG_ID)
    && id != "" && All(id, IsDigit)
    && |body| == |TAG_BODY| && FoldPrefix(body, TAG_BODY)
    && All(fallback, NotAngle)
    && |close| == |TAG_CLOSE| && FoldPrefix(close, TAG_CLOSE)
  }

  /** A letter of the pattern is matched by its two cases, the letter i by two more characters, and any other
      character by itself; an id is made of the ten digits. */
  lemma MatchesUpToCase(c: char, pat: char)
    requires pat in TAG_OPEN || pat in TAG_ID || pat in TAG_BODY || pat in TAG_CLOSE
    ensures Fold(c) == pat <==>
            || c == pat
            || ('a' <= pat <= 'z' && c as int == pat as int - 32)
            || (pat == 'i' && (c == '\U{130}' || c == '\U{131}'))
    ensures IsDigit(c) <==> c in {'0', '1', '2', '3', '4', '5', '6', '7', '8', '9'}
  {
  }

  lemma HeadFolds(o: string, pat: string)
    requires pat != "" && FoldPrefix(o, pat)
    ensures Fold(o[0]) == pat[0]
  {
  }

  lemma HeadsStop(attr: string, body: string, close: string)
    requires FoldPrefix(attr, TAG_ID) && FoldPrefix(body, TAG_BODY) && FoldPrefix(close, TAG_CLOSE)
    ensures !IsSpace(attr[0]) && !IsDigit(body[0]) && !NotAngle(close[0])
  {
    HeadFolds(attr, TAG_ID);
    HeadFolds(body, TAG_BODY);
    HeadFolds(close, TAG_CLOSE);
  }

  lemma RestMatches(id: string, body: string, fallback: string, close: string, more: string)
    requires id != "" && All(id, IsDigit)
    requires |body| == |TAG_BODY| && FoldPrefix(body, TAG_BODY) && !IsDigit(body[0])
    requires All(fallback, NotAngle)
    requires |close| == |TAG_CLOSE| && FoldPrefix(close, TAG_CLOSE) && !NotAngle(close[0])
    ensures MatchRest(id + (body + (fallback + (close + more)))) ==
            Some(Tag(id, fallback, |id| + |TAG_BODY| + |fallback| + |TAG_CLOSE|))
  {
    hide FoldPrefix, Run, All, IsDigit, NotAngle;
    PrefixOver(close, more, TAG_CLOSE);
    RunOver(fallback, close + more, NotAngle);
    PrefixOver(body, fallback + (close + more), TAG_BODY);
    RunOver(id, body + (fallback + (close + more)), IsDigit);
  }

  /** A text that starts with that shape is matched, with the shape's parts. */
  lemma SpelledIsMatched(open: string, blanks: string, attr: string, id: string, body: string, fallback: string,
          close: string, more: string)
    requires Spells(open, blanks, attr, id, body, fallback, close)
    ensures MatchTag(open + (blanks + (attr + (id + (body + (fallback + (close + more))))))) ==
            Some(Tag(id, fallback, |TAG_OPEN| + |blanks| + |TAG_ID| + (|id| + |TAG_BODY| + |fallback| + |TAG_CLOSE|)))
  {
    hide FoldPrefix, Run, All, IsDigit, NotAngle, IsSpace, MatchRest;
    HeadsStop(attr, body, close);
    RestMatches(id, body, fallback, close, more);
    var rest := id + (body + (fallback + (close + more)));
    PrefixOver(attr, rest, TAG_ID);
    RunOver(blanks, attr + rest, IsSpace);
    PrefixOver(open, blanks + (attr + rest), TAG_OPEN);
  }

  lemma MatchedRestIsSpelled(s: string) returns (body: string, close: string, more: string)
    requires MatchRest(s).Some?
    ensures var t := MatchRest(s).value;
            && t.id != "" && All(t.id, IsDigit) && All(t.fallback, NotAngle)
            && |body| == |TAG_BODY| && FoldPrefix(body, TAG_BODY)
            && |close| == |TAG_CLOSE| && FoldPrefix(close, TAG_CLOSE)
            && s == t.id + (body + (t.fallback + (close + more)))
  {
    hide All, IsDigit, NotAngle, FoldPrefix;
    var d := Run(s, IsDigit);
    RunIsAll(s, IsDigit);
    var after := s[d..][|TAG_BODY|..];
    var f := Run(after, NotAngle);
    RunIsAll(after, NotAngle);
    hide Run;
    body, close, more := s[d..][..|TAG_BODY|], after[f..][..|TAG_CLOSE|], after[f..][|TAG_CLOSE|..];
    TakeDrop(after[f..], |TAG_CLOSE|);
    TakeDrop(after, f);
    TakeDrop(s[d..], |TAG_BODY|);
    TakeDrop(s, d);
    PrefixOfTake(s[d..], TAG_BODY);
    PrefixOfTake(after[f..], TAG_CLOSE);
  }

  lemma TakeDrop(s: string, i: nat)
    requires i <= |s|
    ensures s == s[..i] + s[i..]
  {
  }

  lemma PrefixOfTake(s: string, pat: string)
    requires FoldPrefix(s, pat)
    ensures |pat| <= |s| && FoldPrefix(s[..|pat|], pat)
  {
  }

  /** And nothing else is matched. */
  lemma MatchedIsSpelled(s: string)
          returns (open: string, blanks: string, attr: string, body: string, close: string, more: string)
    requires MatchTag(s).Some?
    ensures var t := MatchTag(s).value;
            && Spells(open, blanks, attr, t.id, body, t.fallback, close)
            && s == open + (blanks + (attr + (t.id + (body + (t.fallback + (close + more))))))
  {
    hide All, IsDigit, NotAngle, IsSpace, MatchRest, FoldPrefix, Run;
    var n := |TAG_OPEN|;
    PrefixOfTake(s, TAG_OPEN);
    var gap := s[n..];
    var k := Run(gap, IsSpace);
    RunIsAll(gap, IsSpace);
    PrefixOfTake(gap[k..], TAG_ID);
    var rest := gap[k..][|TAG_ID|..];
    body, close, more := MatchedRestIsSpelled(rest);
    hide MatchTag;
    open, blanks, attr := s[..n], gap[..k], gap[k..][..|TAG_ID|];
    TakeDrop(gap[k..], |TAG_ID|);
    TakeDrop(gap, k);
    TakeDrop(s, n);
  }

  lemma PatternsFold()
    ensures FoldPrefix(TAG_OPEN, TAG_OPEN) && FoldPrefix(TAG_ID, TAG_ID)
    ensures FoldPrefix(TAG_BODY, TAG_BODY) && FoldPrefix(TAG_CLOSE, TAG_CLOSE)
  {
  }

  lemma Assoc(a: string, b: string, c: string)
    ensures a + b + c == a + (b + c)
  {
  }

  lemma CanonicalSplits(id: string, fallback: string, more: string)
    ensures Canonical(id, fallback) + more ==
      TAG_OPEN + (" " + (TAG_ID + (id + (TAG_BODY + (fallback + (TAG_CLOSE + more))))))
  {
    var a, b, c := TAG_OPEN + " ", TAG_OPEN + " " + TAG_ID, TAG_OPEN + " " + TAG_ID + id;
    Assoc(c + TAG_BODY + fallback, TAG_CLOSE, more);
    Assoc(c + TAG_BODY, fallback, TAG_CLOSE + more);
    Assoc(c, TAG_BODY, fallback + (TAG_CLOSE + more));
    Assoc(b, id, TAG_BODY + (fallback + (TAG_CLOSE + more)));
    Assoc(a, TAG_ID, id + (TAG_BODY + (fallback + (TAG_CLOSE + more))));
    Assoc(TAG_OPEN, " ", TAG_ID + (id + (TAG_BODY + (fallback + (TAG_CLOSE + more)))));
  }

  lemma CanonicalIsMatched(id: string, fallback: string, more: string)
    requires id != "" && All(id, IsDigit) && All(fallback, NotAngle)
    ensures MatchTag(Canonical(id, fallback) + more) == Some(Tag(id, fallback, |Canonical(id, fallback)|))
  {
    hide MatchTag, FoldPrefix;
    PatternsFold();
    SpelledIsMatched(TAG_OPEN, " ", TAG_ID, id, TAG_BODY, fallback, TAG_CLOSE, more);
    CanonicalSplits(id, fallback, more);
  }

  lemma HoldSplits(id: string, fallback: string, more: string)
    ensures Placeholder(id, fallback) + more == HOLD_OPEN + (id + ("|" + (fallback + (HOLD_CLOSE + more))))
  {
    Assoc(HOLD_OPEN + id + "|" + fallback, HOLD_CLOSE, more);
    Assoc(HOLD_OPEN + id + "|", fallback, HOLD_CLOSE + more);
    Assoc(HOLD_OPEN + id, "|", fallback + (HOLD_CLOSE + more));
    Assoc(HOLD_OPEN, id, "|" + (fallback + (HOLD_CLOSE + more)));
  }

  lemma DropPrefix(a: string, b: string)
    ensures a <= a + b && (a + b)[|a|..] == b
  {
  }

  lemma HeldIsMatched(id: string, fallback: string, more: string)
    requires id != "" && All(id, IsDigit) && All(fallback, NotNul)
    ensures MatchHeld(id + ("|" + (fallback + (HOLD_CLOSE + more)))) ==
            Some(Tag(id, fallback, |id| + 1 + |fallback| + |HOLD_CLOSE|))
  {
    assert !IsDigit('|') && !NotNul(HOLD_CLOSE[0]);
    hide Run, All, IsDigit, NotNul;
    var body := fallback + (HOLD_CLOSE + more);
    RunOver(id, "|" + body, IsDigit);
    DropPrefix("|", body);
    RunOver(fallback, HOLD_CLOSE + more, NotNul);
    DropPrefix(HOLD_CLOSE, more);
  }

  lemma HoldIsMatched(id: string, fallback: string, more: string)
    requires id != "" && All(id, IsDigit) && All(fallback, NotNul)
    ensures MatchHold(Placeholder(id, fallback) + more) == Some(Tag(id, fallback, |Placeholder(id, fallback)|))
  {
    hide MatchHeld;
    HoldSplits(id, fallback, more);
    DropPrefix(HOLD_OPEN, id + ("|" + (fallback + (HOLD_CLOSE + more))));
    HeldIsMatched(id, fallback, more);
  }

  // ------------------------------------------------------------------ scanning laws

  lemma NoHoldHere(s: string)
    requires s != "" && s[0] != NUL
    ensures MatchHold(s).None?
  {
  }

  lemma {:induction false} RestoredOver(x: string, more: string)
    requires All(x, NotNul)
    ensures Restored(x + more) == x + Restored(more)
  {
    if x == "" {
      assert x + more == more;
    } else {
      hide MatchHold, Canonical;
      assert x[0] in x && x[0] != NUL;
      assert (x + more)[1..] == x[1..] + more;
      assert x == [x[0]] + x[1..];
      RestoredOver(x[1..], more);
      NoHoldHere(x + more);
      Assoc([x[0]], x[1..], Restored(more));
    }
  }

  lemma RestoredHold(id: string, fallback: string, more: string)
    requires id != "" && All(id, IsDigit) && All(fallback, NotNul)
    ensures Restored(Placeholder(id, fallback) + more) == Canonical(id, fallback) + Restored(more)
  {
    HoldIsMatched(id, fallback, more);
    hide MatchHold;
    var hold := Placeholder(id, fallback);
    assert (hold + more)[|hold|..] == more;
  }

  lemma {:induction false} EscapeConcat(a: string, b: string)
    ensures Escape(a + b) == Escape(a) + Escape(b)
  {
    if a == "" {
      assert a + b == b;
    } else {
      hide EscapeChar;
      assert (a + b)[1..] == a[1..] + b;
      EscapeConcat(a[1..], b);
      Assoc(EscapeChar(a[0]), Escape(a[1..]), Escape(b));
    }
  }

  predicate Harmless(c: char) { c != '&' && c != '<' && c != '>' }

  lemma {:induction false} EscapeHarmless(s: string)
    requires All(s, Harmless)
    ensures Escape(s) == s
  {
    if s != "" {
      assert s[0] in s;
      EscapeHarmless(s[1..]);
      assert s == [s[0]] + s[1..];
    }
  }

  lemma {:induction false} EscapedHas(s: string)
    ensures All(Escape(s), NotAngle)
    ensures All(s, NotNul) ==> All(Escape(s), NotNul)
  {
    if s != "" {
      EscapedHas(s[1..]);
      assert s[0] in s;
      assert forall c | c in s[1..] :: c in s;
      assert forall c | c in EscapeChar(s[0]) :: c != '<' && (s[0] != NUL ==> c != NUL);
    }
  }

  lemma EscapeHold(id: string, fallback: string, more: string)
    requires All(id, IsDigit)
    ensures Escape(Placeholder(id, fallback) + more) == Placeholder(id, Escape(fallback)) + Escape(more)
  {
    var before := HOLD_OPEN + id + "|";
    HoldPlain(id);
    EscapeConcat(before, fallback + (HOLD_CLOSE + more));
    EscapeConcat(fallback, HOLD_CLOSE + more);
    EscapeConcat(HOLD_CLOSE, more);
    hide Escape;
    Assoc(before + fallback, HOLD_CLOSE, more);
    Assoc(before, fallback, HOLD_CLOSE + more);
    Assoc(before + Escape(fallback), HOLD_CLOSE, Escape(more));
    Assoc(before, Escape(fallback), HOLD_CLOSE + Escape(more));
  }

  lemma HoldPlain(id: string)
    requires All(id, IsDigit)
    ensures Escape(HOLD_OPEN + id + "|") == HOLD_OPEN + id + "|" && Escape(HOLD_CLOSE) == HOLD_CLOSE
  {
    EscapeHarmless(HOLD_OPEN + id + "|");
    EscapeHarmless(HOLD_CLOSE);
  }

  lemma {:induction false} NoHoldNothingRestored(s: string)
    requires !Contains(s, HOLD_OPEN)
    ensures Restored(s) == s
  {
    if s != "" {
      NoHoldNothingRestored(s[1..]);
      assert s == [s[0]] + s[1..];
    }
  }

  /** The early exit of `restore_tg_emoji` never changes its answer. */
  lemma RestoreIsRestored(s: string)
    ensures Restore(s) == Restored(s)
  {
    if s != "" && !Contains(s, HOLD_OPEN) {
      NoHoldNothingRestored(s);
    }
  }

  lemma TagParts(s: string)
    requires MatchTag(s).Some?
    ensures var t := MatchTag(s).value;
            && t.id != "" && All(t.id, IsDigit) && All(t.fallback, NotAngle)
            && (All(s, NotNul) ==> All(t.fallback, NotNul))
  {
    var open, blanks, attr, body, close, more := MatchedIsSpelled(s);
    hide MatchTag, FoldPrefix;
    var t := MatchTag(s).value;
    assert forall c | c in t.fallback :: c in s;
  }

  // ------------------------------------------------------------------ escaping keeps the tags

  /** The reference: each tag in canonical form with its fallback escaped, everything else escaped. */
  function Segmentwise(s: string): string
    decreases |s|
  {
    if s == "" then ""
    else
      match MatchTag(s)
      case Some(t) => Canonical(t.id, Escape(t.fallback)) + Segmentwise(s[t.len..])
      case None => EscapeChar(s[0]) + Segmentwise(s[1..])
  }

  lemma {:induction false} PipelineIsSegmentwise(s: string)
    requires All(s, NotNul)
    ensures Restored(Escape(Protected(s))) == Segmentwise(s)
    decreases |s|
  {
    hide MatchTag, MatchHold, Placeholder, Canonical;
    if s != "" {
      match MatchTag(s)
      case Some(t) =>
        TagParts(s);
        PipelineIsSegmentwise(s[t.len..]);
        EscapedHas(t.fallback);
        EscapeHold(t.id, t.fallback, Protected(s[t.len..]));
        RestoredHold(t.id, Escape(t.fallback), Escape(Protected(s[t.len..])));
      case None =>
        assert s[0] in s;
        PipelineIsSegmentwise(s[1..]);
        assert ([s[0]] + Protected(s[1..]))[1..] == Protected(s[1..]);
        RestoredOver(EscapeChar(s[0]), Escape(Protected(s[1..])));
    }
  }

  predicate TagFree(s: string) {
    forall i | 0 <= i < |s| :: MatchTag(s[i..]).None?
  }

  lemma {:induction false} TagFreeIsEscaped(s: string)
    ensures TagFree(s) ==> Segmentwise(s) == Escape(s)
    ensures !TagFree(s) ==> '<' in Segmentwise(s)
    decreases |s|
  {
    hide MatchTag, EscapeChar;
    if s != "" {
      assert s[0..] == s;
      match MatchTag(s)
      case Some(t) =>
        assert Canonical(t.id, Escape(t.fallback))[0] == '<';
        assert Segmentwise(s)[0] == '<';
      case None =>
        TagFreeIsEscaped(s[1..]);
        forall i | 0 <= i < |s[1..]| ensures s[1..][i..] == s[i + 1..] {}
        if TagFree(s) {
          assert forall i | 0 <= i < |s[1..]| :: MatchTag(s[1..][i..]) == MatchTag(s[i + 1..]);
        } else {
          var i :| 0 <= i < |s| && MatchTag(s[i..]).Some?;
          assert s[1..][i - 1..] == s[i..];
        }
    }
  }

  lemma {:induction false} RestoredIsSame(s: string)
    requires All(s, NotNul)
    ensures Restored(s) == s
  {
    RestoredOver(s, "");
    assert s + "" == s;
  }

  lemma EscapeHtmlIs(s: string)
    requires All(s, NotNul)
    ensures EscapeHtml(s) == if Contains(s, TAG_OPEN) then Segmentwise(s) else Escape(s)
  {
    RestoreIsRestored(Escape(Protect(s)));
    if s != "" && Contains(s, TAG_OPEN) {
      PipelineIsSegmentwise(s);
    } else {
      EscapedHas(s);
      RestoredIsSame(Escape(s));
    }
  }

  /** For text without NUL, escaping is segment by segment exactly when a lower-case opener occurs in the
      text, or there is no tag at all: tags in other letter case survive only beside a lower-case one. */
  lemma EscapeHtmlIsSegmentwiseIff(s: string)
    requires All(s, NotNul)
    ensures EscapeHtml(s) == Segmentwise(s) <==> Contains(s, TAG_OPEN) || TagFree(s)
  {
    EscapeHtmlIs(s);
    TagFreeIsEscaped(s);
    EscapedHas(s);
  }

  // ------------------------------------------------------------------ reading it back

  datatype Token = Char(c: char) | Emoji(id: string, fallback: string)

  /** The text as its author means it: tags, and characters. */
  function Tokens(s: string): seq<Token>
    decreases |s|
  {
    if s == "" then []
    else
      match MatchTag(s)
      case Some(t) => [Emoji(t.id, t.fallback)] + Tokens(s[t.len..])
      case None => [Char(s[0])] + Tokens(s[1..])
  }

  function Chars(s: string): seq<Token> {
    seq(|s|, i requires 0 <= i < |s| => Char(s[i]))
  }

  /** One character or entity from the front. */
  function ReadChar(s: string): (r: (char, nat))
    requires s != ""
    ensures 0 < r.1 <= |s|
  {
    if "&amp;" <= s then ('&', 5)
    else if "&lt;" <= s then ('<', 4)
    else if "&gt;" <= s then ('>', 4)
    else (s[0], 1)
  }

  function Unescape(s: string): string
    decreases |s|
  {
    if s == "" then "" else [ReadChar(s).0] + Unescape(s[ReadChar(s).1..])
  }

  /** How Telegram reads the HTML. */
  function Read(s: string): seq<Token>
    decreases |s|
  {
    if s == "" then []
    else
      match MatchTag(s)
      case Some(t) => [Emoji(t.id, Unescape(t.fallback))] + Read(s[t.len..])
      case None => [Char(ReadChar(s).0)] + Read(s[ReadChar(s).1..])
  }

  /** Escaped text has no angle bracket left, and every ampersand in it begins one of the three entities. */
  lemma {:induction false} EscapedIsSafe(s: string)
    ensures forall i | 0 <= i < |Escape(s)| ::
              && Escape(s)[i] != '<' && Escape(s)[i] != '>'
              && (Escape(s)[i] == '&' ==>
                    "&amp;" <= Escape(s)[i..] || "&lt;" <= Escape(s)[i..] || "&gt;" <= Escape(s)[i..])
  {
    if s != "" {
      EscapedIsSafe(s[1..]);
      var e, more := EscapeChar(s[0]), Escape(s[1..]);
      forall i | 0 <= i < |e + more|
        ensures (e + more)[i] != '<' && (e + more)[i] != '>'
        ensures (e + more)[i] == '&' ==>
                  "&amp;" <= (e + more)[i..] || "&lt;" <= (e + more)[i..] || "&gt;" <= (e + more)[i..]
      {
        if i < |e| {
          assert (e + more)[i] == e[i];
          assert i == 0 ==> (e + more)[i..] == e + more && e <= e + more;
        } else {
          assert (e + more)[i..] == more[i - |e|..];
        }
      }
      assert Escape(s) == e + more;
    }
  }

  lemma EscapedCharIsRead(c: char, more: string)
    ensures ReadChar(EscapeChar(c) + more) == (c, |EscapeChar(c)|)
  {
    var e := EscapeChar(c);
    DropPrefix(e, more);
    assert (e + more)[0] == e[0];
    assert c == '<' || c == '>' ==> (e + more)[1] == e[1];
  }

  lemma NoTagHere(s: string)
    requires s != "" && s[0] != '<'
    ensures MatchTag(s).None?
  {
  }

  lemma ReadCharUndoesEscape(c: char, more: string)
    ensures ReadChar(EscapeChar(c) + more) == (c, |EscapeChar(c)|)
    ensures (EscapeChar(c) + more)[|EscapeChar(c)|..] == more
    ensures MatchTag(EscapeChar(c) + more).None?
  {
    hide MatchTag, ReadChar;
    EscapedCharIsRead(c, more);
    DropPrefix(EscapeChar(c), more);
    NoTagHere(EscapeChar(c) + more);
  }

  /** Reading the entities undoes escaping. */
  lemma {:induction false} UnescapeUndoesEscape(s: string)
    ensures Unescape(Escape(s)) == s
  {
    hide MatchTag, ReadChar, EscapeChar;
    if s != "" {
      UnescapeUndoesEscape(s[1..]);
      ReadCharUndoesEscape(s[0], Escape(s[1..]));
      assert s == [s[0]] + s[1..];
    }
  }

  lemma {:induction false} ReadUndoesSegmentwise(s: string)
    ensures Read(Segmentwise(s)) == Tokens(s)
    decreases |s|
  {
    hide MatchTag, MatchHold, Placeholder, Canonical;
    if s != "" {
      match MatchTag(s)
      case Some(t) =>
        TagParts(s);
        EscapedHas(t.fallback);
        var more := Segmentwise(s[t.len..]);
        var tag := Canonical(t.id, Escape(t.fallback));
        CanonicalIsMatched(t.id, Escape(t.fallback), more);
        assert (tag + more)[|tag|..] == more;
        UnescapeUndoesEscape(t.fallback);
        ReadUndoesSegmentwise(s[t.len..]);
      case None =>
        ReadCharUndoesEscape(s[0], Segmentwise(s[1..]));
        ReadUndoesSegmentwise(s[1..]);
    }
  }

  lemma {:induction false} ReadUndoesEscape(s: string)
    ensures Read(Escape(s)) == Chars(s)
  {
    hide MatchTag, ReadChar, EscapeChar;
    if s != "" {
      ReadUndoesEscape(s[1..]);
      ReadCharUndoesEscape(s[0], Escape(s[1..]));
      assert Chars(s) == [Char(s[0])] + Chars(s[1..]);
    }
  }

  /** Telegram reads escaped text back as what was written: its tags with their fallbacks, and every other
      character as itself (every character, when there is no lower-case opener). */
  lemma ReadUndoesEscapeHtml(s: string)
    requires All(s, NotNul)
    ensures Read(EscapeHtml(s)) == if Contains(s, TAG_OPEN) then Tokens(s) else Chars(s)
  {
    EscapeHtmlIs(s);
    ReadUndoesSegmentwise(s);
    ReadUndoesEscape(s);
  }

  // ------------------------------------------------------------------ restore undoes protect

  /** The text with every tag in canonical form. */
  function Canonicalised(s: string): string
    decreases |s|
  {
    if s == "" then ""
    else
      match MatchTag(s)
      case Some(t) => Canonical(t.id, t.fallback) + Canonicalised(s[t.len..])
      case None => [s[0]] + Canonicalised(s[1..])
  }

  predicate TagsCanonical(s: string)
    decreases |s|
  {
    s == "" ||
    match MatchTag(s)
    case Some(t) => s[..t.len] == Canonical(t.id, t.fallback) && TagsCanonical(s[t.len..])
    case None => TagsCanonical(s[1..])
  }

  lemma {:induction false} RestoredProtected(s: string)
    requires All(s, NotNul)
    ensures Restored(Protected(s)) == Canonicalised(s)
    decreases |s|
  {
    hide MatchTag, MatchHold, Placeholder, Canonical;
    if s != "" {
      match MatchTag(s)
      case Some(t) =>
        TagParts(s);
        RestoredProtected(s[t.len..]);
        RestoredHold(t.id, t.fallback, Protected(s[t.len..]));
      case None =>
        assert s[0] in s;
        RestoredProtected(s[1..]);
        RestoredOver([s[0]], Protected(s[1..]));
    }
  }

  lemma TagAtLeastCanonical(s: string)
    requires MatchTag(s).Some?
    ensures var t := MatchTag(s).value; |Canonical(t.id, t.fallback)| <= t.len
  {
  }

  lemma {:induction false} CanonicalisedNoLonger(s: string)
    ensures |Canonicalised(s)| <= |s|
    decreases |s|
  {
    hide MatchTag, Canonical;
    if s != "" {
      match MatchTag(s)
      case Some(t) =>
        TagAtLeastCanonical(s);
        CanonicalisedNoLonger(s[t.len..]);
      case None =>
        CanonicalisedNoLonger(s[1..]);
    }
  }

  lemma {:induction false} CanonicalisedIsSameIff(s: string)
    ensures Canonicalised(s) == s <==> TagsCanonical(s)
    decreases |s|
  {
    hide MatchTag, Canonical;
    if s != "" {
      match MatchTag(s)
      case Some(t) =>
        var tag, more := Canonical(t.id, t.fallback), Canonicalised(s[t.len..]);
        TagAtLeastCanonical(s);
        CanonicalisedNoLonger(s[t.len..]);
        CanonicalisedIsSameIff(s[t.len..]);
        assert s == s[..t.len] + s[t.len..];
        if tag + more == s {
          assert |tag| == t.len;
          assert (tag + more)[..t.len] == tag && (tag + more)[t.len..] == more;
        }
      case None =>
        CanonicalisedIsSameIff(s[1..]);
        assert s == [s[0]] + s[1..];
        assert ([s[0]] + Canonicalised(s[1..]))[1..] == Canonicalised(s[1..]);
    }
  }

  /** Restoring a protected text gives back the text exactly when its tags are canonical or it was left
      alone for want of a lower-case opener. */
  lemma RestoreUndoesProtectIff(s: string)
    requires All(s, NotNul)
    ensures Restore(Protect(s)) == s <==> !Contains(s, TAG_OPEN) || TagsCanonical(s)
  {
    RestoreIsRestored(Protect(s));
    if s != "" && Contains(s, TAG_OPEN) {
      RestoredProtected(s);
      CanonicalisedIsSameIff(s);
    } else {
      RestoredIsSame(s);
    }
  }

  lemma {:induction false} NoAngleNoTag(s: string)
    requires All(s, NotAngle)
    ensures TagFree(s) && !Contains(s, TAG_OPEN)
  {
    forall i | 0 <= i < |s| ensures MatchTag(s[i..]).None? {
      assert s[i] in s && s[i..][0] == s[i];
    }
    NoOpener(s);
  }

  lemma {:induction false} NoOpener(s: string)
    requires All(s, NotAngle)
    ensures !Contains(s, TAG_OPEN)
  {
    if s != "" {
      NoOpener(s[1..]);
      assert s[0] in s && TAG_OPEN[0] == '<';
    }
  }

  lemma PlaceholderIsHarmless(id: string, fallback: string)
    requires All(id, IsDigit) && All(fallback, Harmless)
    ensures All(Placeholder(id, fallback), Harmless) && All(Placeholder(id, fallback), NotAngle)
  {
  }

  /** NUL-freedom is needed: every text that spells a placeholder comes out as a tag that was never there,
      even though it contains no tag and nothing to escape. */
  lemma ForgedPlaceholder(id: string, fallback: string)
    requires id != "" && All(id, IsDigit) && All(fallback, NotNul) && All(fallback, Harmless)
    ensures var s := Placeholder(id, fallback);
            && TagFree(s) && Segmentwise(s) == s
            && EscapeHtml(s) == Canonical(id, fallback) != s
  {
    var s := Placeholder(id, fallback);
    PlaceholderIsHarmless(id, fallback);
    NoAngleNoTag(s);
    TagFreeIsEscaped(s);
    EscapeHarmless(s);
    RestoreIsRestored(s);
    RestoredHold(id, fallback, "");
    hide MatchTag, MatchHold, Escape, Contains;
    assert s + "" == s && Canonical(id, fallback) + Restored("") == Canonical(id, fallback);
    assert Canonical(id, fallback)[0] == '<' != s[0];
  }

  // ------------------------------------------------------------------ text with NUL

  lemma EscapeHead(x: string)
    requires x != "" && Harmless(x[0])
    ensures Escape(x) != "" && Escape(x)[0] == x[0] && Escape(x)[1..] == Escape(x[1..])
  {
    assert ([x[0]] + Escape(x[1..]))[1..] == Escape(x[1..]);
  }

  lemma ConsPrefix(p: string, x: string)
    requires p != "" && x != "" && p[0] == x[0]
    ensures p <= x <==> p[1..] <= x[1..]
    ensures p <= x ==> x[|p|..] == x[1..][|p[1..]|..]
  {
    assert p == [p[0]] + p[1..] && x == [x[0]] + x[1..];
    if p[1..] <= x[1..] {
      assert forall i | 0 < i < |p| :: p[i] == p[1..][i - 1] && x[i] == x[1..][i - 1];
    }
  }

  /** Escaping moves no harmless prefix. */
  lemma {:induction false} PrefixEscaped(p: string, x: string)
    requires All(p, Harmless)
    ensures p <= Escape(x) <==> p <= x
    ensures p <= x ==> Escape(x)[|p|..] == Escape(x[|p|..])
  {
    if p != "" {
      assert p[0] in p;
      assert All(p[1..], Harmless);
      var q := p[1..];
      assert p == [p[0]] + q;
      if x != "" && x[0] == p[0] {
        EscapeHead(x);
        PrefixEscaped(q, x[1..]);
        ConsPrefix(p, x);
        ConsPrefix(p, Escape(x));
      } else if x != "" {
        assert (EscapeChar(x[0]) + Escape(x[1..]))[0] == EscapeChar(x[0])[0];
      }
    }
  }

  lemma {:induction false} DigitsEscaped(x: string)
    ensures Run(Escape(x), IsDigit) == Run(x, IsDigit)
    ensures Escape(x)[Run(x, IsDigit)..] == Escape(x[Run(x, IsDigit)..])
  {
    if x != "" && IsDigit(x[0]) {
      EscapeHead(x);
      DigitsEscaped(x[1..]);
      var n := Run(x[1..], IsDigit);
      assert Escape(x)[1..][n..] == Escape(x)[n + 1..] && x[1..][n..] == x[n + 1..];
    } else if x != "" {
      assert Escape(x)[0] == EscapeChar(x[0])[0];
    }
  }

  lemma RunStep(x: string)
    requires x != "" && x[0] != NUL
    ensures Run(x, NotNul) == 1 + Run(x[1..], NotNul) && All(EscapeChar(x[0]), NotNul)
    ensures x == [x[0]] + x[1..]
  {
  }

  lemma {:induction false} NulEscaped(x: string)
    ensures Escape(x)[Run(Escape(x), NotNul)..] == Escape(x[Run(x, NotNul)..])
  {
    if x != "" && x[0] != NUL {
      NulEscaped(x[1..]);
      RunStep(x);
      var more := Escape(x[1..]);
      assert Escape(x) == EscapeChar(x[0]) + more;
      hide Run, EscapeChar, Escape, All, NotNul;
      RunPast(EscapeChar(x[0]), more);
      DropMore(EscapeChar(x[0]), more, Run(more, NotNul));
      DropMore([x[0]], x[1..], Run(x[1..], NotNul));
    } else if x != "" {
      assert (EscapeChar(x[0]) + Escape(x[1..]))[0] == NUL;
    }
  }

  lemma DropMore(e: string, more: string, n: nat)
    requires n <= |more|
    ensures (e + more)[|e| + n..] == more[n..]
  {
  }

  lemma {:induction false} RunPast(e: string, more: string)
    requires All(e, NotNul)
    ensures Run(e + more, NotNul) == |e| + Run(more, NotNul)
  {
    if e == "" {
      assert e + more == more;
    } else {
      assert e[0] in e;
      RunPast(e[1..], more);
      assert (e + more)[1..] == e[1..] + more;
    }
  }

  lemma HoldsAreHarmless()
    ensures All(HOLD_OPEN, Harmless) && All(HOLD_CLOSE, Harmless) && All("|", Harmless)
  {
  }

  lemma HeldEscapedIff(y: string)
    ensures MatchHeld(Escape(y)).Some? <==> MatchHeld(y).Some?
  {
    HoldsAreHarmless();
    DigitsEscaped(y);
    var d := Run(y, IsDigit);
    PrefixEscaped("|", y[d..]);
    hide Escape, Run, IsDigit, NotNul, All, Harmless;
    if d > 0 && "|" <= y[d..] {
      var z := y[d..][1..];
      assert Escape(y)[d..][1..] == Escape(z);
      NulEscaped(z);
      PrefixEscaped(HOLD_CLOSE, z[Run(z, NotNul)..]);
    }
  }

  /** A text spells a placeholder exactly when its escaped form does. */
  lemma HoldEscapedIff(x: string)
    ensures MatchHold(Escape(x)).Some? <==> MatchHold(x).Some?
  {
    HoldsAreHarmless();
    PrefixEscaped(HOLD_OPEN, x);
    hide Escape, MatchHeld, All;
    if HOLD_OPEN <= x {
      HeldEscapedIff(x[|HOLD_OPEN|..]);
    }
  }

  /** The text starts with a spelled placeholder in which no tag starts. */
  predicate SpellsHold(s: string) {
    MatchHold(s).Some? && forall i | 0 < i < MatchHold(s).value.len :: MatchTag(s[i..]).None?
  }

  /** Outside the tags no placeholder is spelled, except around a tag, and no tag's fallback contains NUL. */
  predicate Unforged(s: string)
    decreases |s|
  {
    s == "" ||
    match MatchTag(s)
    case Some(t) => All(t.fallback, NotNul) && Unforged(s[t.len..])
    case None => !SpellsHold(s) && Unforged(s[1..])
  }

  lemma {:induction false} RunWithin(a: string, y: string, p: char -> bool)
    ensures Run(a, p) < |a| || Run(a + y, p) < |a| ==> Run(a + y, p) == Run(a, p)
  {
    if a != "" {
      assert (a + y)[1..] == a[1..] + y;
      RunWithin(a[1..], y, p);
    }
  }

  lemma PrefixWithin(a: string, y: string, k: nat, pat: string)
    requires k + |pat| <= |a|
    ensures pat <= a[k..] <==> pat <= (a + y)[k..]
  {
    assert a[k..][..|pat|] == (a + y)[k..][..|pat|];
  }

  /** What is matched lies in the text before y exactly if that text is matched by itself. */
  lemma HeldWithinIff(a: string, y: string)
    ensures MatchHeld(a).Some? <==> MatchHeld(a + y).Some? && MatchHeld(a + y).value.len <= |a|
    ensures MatchHeld(a).Some? ==> MatchHeld(a + y) == MatchHeld(a)
  {
    RunWithin(a, y, IsDigit);
    var d := Run(a, IsDigit);
    hide Run, IsDigit, NotNul;
    if d < |a| {
      PrefixWithin(a, y, d, "|");
      var body := a[d..][1..];
      assert (a + y)[d..][1..] == body + y;
      RunWithin(body, y, NotNul);
      var n := Run(body, NotNul);
      if n + |HOLD_CLOSE| <= |body| {
        PrefixWithin(body, y, n, HOLD_CLOSE);
        assert (body + y)[..n] == body[..n] && (a + y)[..d] == a[..d];
      }
    }
  }

  lemma HoldWithinIff(a: string, y: string)
    ensures MatchHold(a).Some? <==> MatchHold(a + y).Some? && MatchHold(a + y).value.len <= |a|
    ensures MatchHold(a).Some? ==> MatchHold(a + y) == MatchHold(a)
  {
    hide MatchHeld;
    if |HOLD_OPEN| <= |a| {
      PrefixWithin(a, y, 0, HOLD_OPEN);
      assert a[0..] == a && (a + y)[0..] == a + y;
      assert (a + y)[|HOLD_OPEN|..] == a[|HOLD_OPEN|..] + y;
      HeldWithinIff(a[|HOLD_OPEN|..], y);
    }
  }

  lemma {:induction false} RunHasNoNul(s: string, p: char -> bool)
    requires !p(NUL)
    ensures forall i | 0 <= i < Run(s, p) :: s[i] != NUL
  {
    if s != "" && p(s[0]) {
      RunHasNoNul(s[1..], p);
      assert forall i | 0 < i < Run(s, p) :: s[i] == s[1..][i - 1];
    }
  }

  /** The NUL of what follows the opening is the one before the slash. */
  lemma HeldHasOneNul(s: string, k: nat)
    requires MatchHeld(s).Some? && k < MatchHeld(s).value.len && s[k] == NUL
    ensures k + 1 < |s| && s[k + 1] == '/'
  {
    RunHasNoNul(s, IsDigit);
    var d := Run(s, IsDigit);
    var body := s[d..][1..];
    RunHasNoNul(body, NotNul);
    var n := Run(body, NotNul);
    hide Run;
    assert s[d] == s[d..][0] == '|';
    assert forall i | 0 <= i < |body| :: body[i] == s[d + 1 + i];
    CloseAt(body[n..], k - (d + 1 + n));
  }

  /** The second NUL of a placeholder is the one before its slash. */
  lemma HoldHasTwoNuls(x: string, k: nat)
    requires MatchHold(x).Some? && 0 < k < MatchHold(x).value.len && x[k] == NUL
    ensures k + 1 < |x| && x[k + 1] == '/'
  {
    hide MatchHeld;
    HoldOpenIsPlain(x);
    HeldHasOneNul(x[|HOLD_OPEN|..], k - |HOLD_OPEN|);
  }

  lemma HoldOpenIsPlain(x: string)
    requires HOLD_OPEN <= x
    ensures forall i | 0 < i < |HOLD_OPEN| :: x[i] != NUL
  {
    assert forall i | 0 < i < |HOLD_OPEN| :: x[i] == HOLD_OPEN[i] && HOLD_OPEN[i] != NUL;
  }

  lemma CloseAt(rest: string, i: nat)
    requires HOLD_CLOSE <= rest && i < |HOLD_CLOSE| && rest[i] == NUL
    ensures i == 0 && rest[1] == '/'
  {
    assert rest[i] == HOLD_CLOSE[i] && rest[1] == HOLD_CLOSE[1];
  }

  /** A match before a placeholder ends before it. */
  lemma HoldStopsBefore(a: string, y: string)
    requires a != "" && HOLD_OPEN <= y
    ensures MatchHold(a + y).Some? ==> MatchHold(a + y).value.len <= |a|
  {
    hide MatchHold;
    assert y[0] == HOLD_OPEN[0] == NUL && y[1] == HOLD_OPEN[1] == 'T';
    assert (a + y)[|a|] == y[0] && (a + y)[|a| + 1] == y[1];
    if MatchHold(a + y).Some? && |a| < MatchHold(a + y).value.len {
      HoldHasTwoNuls(a + y, |a|);
    }
  }

  lemma SpelledBeforeIff(a: string, y: string, z: string)
    requires a != "" && HOLD_OPEN <= y
    ensures MatchHold(a + y).Some? <==> MatchHold(a + z).Some? && MatchHold(a + z).value.len <= |a|
  {
    HoldStopsBefore(a, y);
    HoldWithinIff(a, y);
    HoldWithinIff(a, z);
    hide MatchHold;
  }

  lemma ProtectedParts(s: string)
    ensures NextMatch(s, 0).None? ==> Protected(s) == s
    ensures NextMatch(s, 0).Some? ==>
              var at, t := NextMatch(s, 0).value.0, NextMatch(s, 0).value.1;
              Protected(s) == s[..at] + (Placeholder(t.id, t.fallback) + Protected(s[at + t.len..]))
  {
    assert s[0..] == s;
    ProtectedUpToMatch(s, 0);
    hide MatchTag, Protected, Placeholder, NextMatch;
  }

  /** With the first tag at p, no tag starts inside a spelled placeholder that ends by p, and only there. */
  lemma SpellsBeforeTag(s: string, p: nat)
    requires 0 < p < |s| && MatchTag(s[p..]).Some? && forall i | 0 <= i < p :: MatchTag(s[i..]).None?
    ensures SpellsHold(s) <==> MatchHold(s).Some? && MatchHold(s).value.len <= p
  {
    hide MatchTag, MatchHold;
  }

  /** What protecting makes of an untagged position spells a placeholder exactly when the text itself does,
      with no tag inside: a tag's own placeholder brings a NUL that the spelled one cannot hold. */
  lemma ProtectedSpellsIff(s: string)
    requires s != "" && MatchTag(s).None?
    ensures MatchHold(Protected(s)).Some? <==> SpellsHold(s)
  {
    hide MatchTag, MatchHold, Protected, Placeholder, NextMatch, SpellsHold;
    ProtectedParts(s);
    if NextMatch(s, 0).Some? {
      var at, t := NextMatch(s, 0).value.0, NextMatch(s, 0).value.1;
      FirstTag(s);
      SpellsBeforeTag(s, at);
      TagMakesHold(s, at, t);
    } else {
      SpellsWithoutTag(s);
    }
  }

  lemma FirstTag(s: string)
    requires MatchTag(s).None? && NextMatch(s, 0).Some?
    ensures var at := NextMatch(s, 0).value.0;
            0 < at < |s| && MatchTag(s[at..]).Some? && forall i | 0 <= i < at :: MatchTag(s[i..]).None?
  {
    FirstMatchIsFirst(s, 0);
    assert s[0..] == s;
    hide MatchTag, NextMatch;
  }

  lemma SpellsWithoutTag(s: string)
    requires NextMatch(s, 0).None?
    ensures SpellsHold(s) <==> MatchHold(s).Some?
  {
    FirstMatchIsFirst(s, 0);
    hide MatchTag, MatchHold, NextMatch;
  }

  lemma TagMakesHold(s: string, p: nat, t: Tag)
    requires 0 < p && p + t.len <= |s|
    ensures MatchHold(s[..p] + (Placeholder(t.id, t.fallback) + Protected(s[p + t.len..]))).Some? <==>
            MatchHold(s).Some? && MatchHold(s).value.len <= p
  {
    var more := Protected(s[p + t.len..]);
    HoldSplits(t.id, t.fallback, more);
    hide MatchHold, Protected, Placeholder;
    assert s == s[..p] + s[p..];
    SpelledBeforeIff(s[..p], Placeholder(t.id, t.fallback) + more, s[p..]);
  }

  lemma {:induction false} FirstMatchIsFirst(s: string, from: nat)
    requires from <= |s|
    ensures NextMatch(s, from).Some? ==> MatchTag(s[NextMatch(s, from).value.0..]) == Some(NextMatch(s, from).value.1)
    ensures forall i | from <= i < (if NextMatch(s, from).Some? then NextMatch(s, from).value.0 else |s|) ::
              MatchTag(s[i..]).None?
    decreases |s| - from
  {
    hide MatchTag;
    if from < |s| && MatchTag(s[from..]).None? {
      FirstMatchIsFirst(s, from + 1);
    }
  }

  lemma CancelPrefix(a: string, b: string, c: string)
    ensures a + b == a + c <==> b == c
  {
    DropPrefix(a, b);
    DropPrefix(a, c);
  }

  /** Where the fallback contains NUL, the placeholder is lost or cut short. */
  lemma NulInFallback(id: string, fallback: string, more: string, rest: string)
    requires id != "" && All(id, IsDigit) && !All(fallback, NotNul)
    ensures Restored(Placeholder(id, fallback) + more) != Canonical(id, fallback) + rest
  {
    var whole := Placeholder(id, fallback) + more;
    if MatchHold(whole).None? {
      HeadOfHold(id, fallback, more);
      HeadOfTag(id, fallback, rest);
    } else {
      var k := Run(fallback, NotNul);
      CutShort(id, fallback, more, k);
      hide MatchHold, Placeholder, Run, All;
      TagsDiffer(id, fallback[..k], Restored(whole[MatchHold(whole).value.len..]), fallback, rest);
    }
  }

  lemma HeadOfHold(id: string, fallback: string, more: string)
    requires MatchHold(Placeholder(id, fallback) + more).None?
    ensures Restored(Placeholder(id, fallback) + more) != "" && Restored(Placeholder(id, fallback) + more)[0] == NUL
  {
    HoldSplits(id, fallback, more);
    hide MatchHold, Placeholder;
  }

  lemma HeadOfTag(id: string, fallback: string, rest: string)
    ensures Canonical(id, fallback) + rest != "" && (Canonical(id, fallback) + rest)[0] == '<'
  {
    CanonicalSplits(id, fallback, rest);
    hide Canonical;
  }

  lemma FirstNul(fallback: string)
    requires !All(fallback, NotNul)
    ensures var k := Run(fallback, NotNul); k < |fallback| && fallback[k] == NUL && All(fallback[..k], NotNul)
  {
    RunIsAll(fallback, NotNul);
    assert fallback[..|fallback|] == fallback;
  }

  /** A match of the shape ends its fallback at the first NUL. */
  lemma HeldStopsAtNul(id: string, front: string, tail: string)
    requires id != "" && All(id, IsDigit) && All(front, NotNul) && tail != "" && tail[0] == NUL
    ensures var m := MatchHeld(id + ("|" + (front + tail)));
            m.Some? ==> m.value.id == id && m.value.fallback == front
  {
    assert !IsDigit('|') && !NotNul(NUL);
    hide Run, All, IsDigit, NotNul;
    RunOver(id, "|" + (front + tail), IsDigit);
    DropPrefix("|", front + tail);
    RunOver(front, tail, NotNul);
  }

  lemma CutShort(id: string, fallback: string, more: string, k: nat)
    requires id != "" && All(id, IsDigit) && !All(fallback, NotNul) && k == Run(fallback, NotNul)
    requires MatchHold(Placeholder(id, fallback) + more).Some?
    ensures k < |fallback| && fallback[k] == NUL
    ensures var t := MatchHold(Placeholder(id, fallback) + more).value; t.id == id && t.fallback == fallback[..k]
  {
    FirstNul(fallback);
    hide Run, All, IsDigit, NotNul, MatchHeld;
    var tail := fallback[k..] + (HOLD_CLOSE + more);
    assert fallback + (HOLD_CLOSE + more) == fallback[..k] + tail by {
      TakeDrop(fallback, k);
      Assoc(fallback[..k], fallback[k..], HOLD_CLOSE + more);
    }
    HoldSplits(id, fallback, more);
    DropPrefix(HOLD_OPEN, id + ("|" + (fallback[..k] + tail)));
    HeldStopsAtNul(id, fallback[..k], tail);
  }

  lemma TagsDiffer(id: string, short: string, a: string, fallback: string, b: string)
    requires short < fallback && fallback[|short|] == NUL
    ensures Canonical(id, short) + a != Canonical(id, fallback) + b
  {
    var front := TAG_OPEN + " " + TAG_ID + id + TAG_BODY + short;
    assert (Canonical(id, short) + a)[|front|] == TAG_CLOSE[0];
    assert (Canonical(id, fallback) + b)[|front|] == fallback[|short|];
  }

  lemma HeadOfRestored(x: string)
    requires x != ""
    ensures Restored(x) != ""
    ensures MatchHold(x).Some? ==> Restored(x)[0] == '<' && x[0] == NUL
    ensures MatchHold(x).None? ==> Restored(x) == [x[0]] + Restored(x[1..])
  {
    if MatchHold(x).Some? {
      var t := MatchHold(x).value;
      HeadOfTag(t.id, t.fallback, Restored(x[t.len..]));
      assert HOLD_OPEN <= x && HOLD_OPEN[0] == NUL;
    }
  }

  /** A NUL survives restoring unless a placeholder starts there. */
  lemma NulSurvivesIff(more: string, rest: string)
    ensures Restored([NUL] + more) == [NUL] + rest <==> MatchHold([NUL] + more).None? && Restored(more) == rest
  {
    var x := [NUL] + more;
    HeadOfRestored(x);
    hide MatchHold, Restored;
    assert x[1..] == more && x[0] == NUL && ([NUL] + rest)[0] == NUL;
    if MatchHold(x).None? {
      CancelPrefix([NUL], Restored(more), rest);
    }
  }

  /** A character before the rest: its escaped form survives restoring unless a placeholder starts there. */
  lemma CharSurvivesIff(c: char, more: string, rest: string)
    ensures Restored(EscapeChar(c) + more) == EscapeChar(c) + rest <==>
            MatchHold(EscapeChar(c) + more).None? && Restored(more) == rest
  {
    hide MatchHold, Restored;
    var e := EscapeChar(c);
    if c == NUL {
      NulSurvivesIff(more, rest);
    } else {
      assert All(e, NotNul) && e[0] != NUL;
      hide EscapeChar, All;
      RestoredOver(e, more);
      assert (e + more)[0] == e[0];
      NoHoldHere(e + more);
      CancelPrefix(e, Restored(more), rest);
    }
  }

  /** For any text at all, the three passes equal segment-wise escaping exactly when nothing is forged. */
  lemma {:induction false} PipelineIsSegmentwiseIff(s: string)
    ensures Restored(Escape(Protected(s))) == Segmentwise(s) <==> Unforged(s)
    decreases |s|
  {
    if s != "" {
      hide MatchTag, MatchHold, Placeholder, Canonical, EscapeChar, SpellsHold;
      match MatchTag(s)
      case Some(t) =>
        TagParts(s);
        var more := Escape(Protected(s[t.len..]));
        PipelineIsSegmentwiseIff(s[t.len..]);
        EscapeHold(t.id, t.fallback, Protected(s[t.len..]));
        NulFreeEscapedIff(t.fallback);
        if All(t.fallback, NotNul) {
          RestoredHold(t.id, Escape(t.fallback), more);
          CancelPrefix(Canonical(t.id, Escape(t.fallback)), Restored(more), Segmentwise(s[t.len..]));
        } else {
          NulInFallback(t.id, Escape(t.fallback), more, Segmentwise(s[t.len..]));
        }
      case None =>
        PipelineIsSegmentwiseIff(s[1..]);
        HoldEscapedIff(Protected(s));
        ProtectedSpellsIff(s);
        assert ([s[0]] + Protected(s[1..]))[1..] == Protected(s[1..]);
        CharSurvivesIff(s[0], Escape(Protected(s[1..])), Segmentwise(s[1..]));
    }
  }

  lemma {:induction false} NulFreeEscapedIff(x: string)
    ensures All(Escape(x), NotNul) <==> All(x, NotNul)
  {
    EscapedHas(x);
    if !All(x, NotNul) {
      NulStays(x);
    }
  }

  lemma {:induction false} NulStays(x: string)
    requires NUL in x
    ensures NUL in Escape(x)
  {
    if x[0] == NUL {
      assert Escape(x)[0] == NUL;
    } else {
      assert x == [x[0]] + x[1..];
      NulStays(x[1..]);
    }
  }

  /** Nowhere does a tag start, or a placeholder. */
  predicate Quiet(s: string) {
    forall i | 0 <= i < |s| :: MatchHold(s[i..]).None? && MatchTag(s[i..]).None?
  }

  lemma QuietCons(s: string)
    requires s != ""
    ensures Quiet(s) <==> MatchHold(s).None? && MatchTag(s).None? && Quiet(s[1..])
  {
    hide MatchHold, MatchTag;
    assert s[0..] == s;
    forall i | 0 <= i < |s[1..]| ensures s[1..][i..] == s[i + 1..] {}
    if MatchHold(s).None? && MatchTag(s).None? && Quiet(s[1..]) {
      forall i | 0 <= i < |s| ensures MatchHold(s[i..]).None? && MatchTag(s[i..]).None? {
        if i > 0 {
          assert s[1..][i - 1..] == s[i..];
        }
      }
    }
    assert Quiet(s) ==> MatchHold(s[0..]).None? && MatchTag(s[0..]).None?;
  }

  lemma {:induction false} PlainIsSegmentwiseIff(s: string)
    ensures Restored(Escape(s)) == Segmentwise(s) <==> Quiet(s)
  {
    if s != "" {
      PlainIsSegmentwiseIff(s[1..]);
      QuietCons(s);
      HoldEscapedIff(s);
      TagHead(s);
      hide MatchTag, MatchHold, Quiet;
      if MatchTag(s).Some? {
        var t := MatchTag(s).value;
        HeadOfTag(t.id, Escape(t.fallback), Segmentwise(s[t.len..]));
        assert Escape(s)[0] == EscapeChar(s[0])[0] == '&';
        HeadOfRestored(Escape(s));
      } else {
        CharSurvivesIff(s[0], Escape(s[1..]), Segmentwise(s[1..]));
      }
    }
  }

  lemma TagHead(s: string)
    requires s != ""
    ensures MatchTag(s).Some? ==> s[0] == '<'
  {
    if s[0] != '<' {
      NoTagHere(s);
    }
  }

  /** The exact condition, for any text: escaping is segment by segment if and only if, where a lower-case
      opener occurs, no placeholder is spelled outside the tags, except around a tag, and no fallback
      contains NUL, and where none occurs, no tag and no placeholder starts anywhere. */
  lemma EscapeHtmlExact(s: string)
    ensures EscapeHtml(s) == Segmentwise(s) <==> if Contains(s, TAG_OPEN) then Unforged(s) else Quiet(s)
  {
    RestoreIsRestored(Escape(Protect(s)));
    PipelineIsSegmentwiseIff(s);
    PlainIsSegmentwiseIff(s);
    hide Restored, Segmentwise, Unforged, Quiet, Escape;
    if s == "" {
      assert !Contains(s, TAG_OPEN);
    }
  }
}
