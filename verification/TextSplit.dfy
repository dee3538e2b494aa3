/** lumen/bot/telegram_text.py: cutting a long text into messages. */
module TextSplit {
  import opened Prelude

  const TELEGRAM_MAX_MESSAGE := 4096

  predicate OccursAt(s: string, pat: string, i: int) {
    0 <= i <= |s| - |pat| && s[i..i + |pat|] == pat
  }

  /** `str.rfind`: the last occurrence, or -1 if there is none. */
  function RFind(s: string, pat: string): (r: int)
    ensures -1 <= r <= Max(-1, |s| - |pat|)
  {
    RFindUpTo(s, pat, |s| - |pat|)
  }

  function RFindUpTo(s: string, pat: string, n: int): (r: int)
    requires n <= |s| - |pat|
    ensures -1 <= r <= Max(-1, n)
    decreases n + 1
  {
    if n < 0 then -1
    else if OccursAt(s, pat, n) then n
    else RFindUpTo(s, pat, n - 1)
  }

  lemma {:induction false} RFindUpToIsLast(s: string, pat: string, n: int)
    requires n <= |s| - |pat|
    ensures var r := RFindUpTo(s, pat, n);
            && (r == -1 || OccursAt(s, pat, r))
            && forall i :: OccursAt(s, pat, i) && i <= n ==> i <= r
    decreases n + 1
  {
    if n >= 0 && !OccursAt(s, pat, n) {
      RFindUpToIsLast(s, pat, n - 1);
    }
  }

  lemma RFindIsLast(s: string, pat: string)
    ensures RFind(s, pat) == -1 || OccursAt(s, pat, RFind(s, pat))
    ensures forall i :: OccursAt(s, pat, i) ==> i <= RFind(s, pat)
  {
    RFindUpToIsLast(s, pat, |s| - |pat|);
  }

  /** `lstrip("\n")`. */
  function TrimNewlines(s: string): (t: string)
    ensures |t| <= |s|
  {
    if s != "" && s[0] == '\n' then TrimNewlines(s[1..]) else s
  }

  /** Where the break is looked for: the last blank line of the window, the last line end, the last
      space, each only if it is not in the first third, and the end of the window otherwise. */
  function Break(rest: string, limit: nat): (cut: nat)
    requires limit <= |rest|
    ensures limit / 3 <= cut <= limit
  {
    WindowBreak(rest[..limit], limit)
  }

  function WindowBreak(window: string, limit: nat): (cut: nat)
    requires |window| == limit
    ensures limit / 3 <= cut <= limit
  {
    var third := limit / 3;
    if RFind(window, "\n\n") >= third then RFind(window, "\n\n")
    else if RFind(window, "\n") >= third then RFind(window, "\n")
    else if RFind(window, " ") >= third then RFind(window, " ")
    else limit
  }

  /** The break that is used: one that would leave an empty piece is given up. */
  function Cut(rest: string, limit: nat): (cut: nat)
    requires limit <= |rest|
    ensures limit / 3 <= cut <= limit
  {
    if TrimRight(rest[..Break(rest, limit)]) == "" then limit else Break(rest, limit)
  }

  function Piece(rest: string, limit: nat): string
    requires limit <= |rest|
  {
    var piece := TrimRight(rest[..Break(rest, limit)]);
    if piece == "" then rest[..limit] else piece
  }

  function Split(s: string, limit: nat): seq<string>
    requires limit >= 100
    decreases |s|
  {
    if s == "" then []
    else if |s| <= limit then [s]
    else
      [Piece(s, limit)] + Split(TrimNewlines(s[Cut(s, limit)..]), limit)
  }

  lemma {:induction false} TrimNewlinesShape(s: string)
    ensures s[|s| - |TrimNewlines(s)|..] == TrimNewlines(s)
    ensures AllSpace(s[..|s| - |TrimNewlines(s)|])
  {
    if s != "" && s[0] == '\n' {
      TrimNewlinesShape(s[1..]);
      var k := |s| - |TrimNewlines(s)|;
      assert s[..k] == ['\n'] + s[1..][..k - 1];
    }
  }

  method FindBreak(window: string, limit: nat) returns (cut: int)
    requires |window| == limit
    ensures cut == WindowBreak(window, limit)
  {
    cut := RFind(window, "\n\n");
    if cut < limit / 3 {
      cut := RFind(window, "\n");
    }
    if cut < limit / 3 {
      cut := RFind(window, " ");
    }
    if cut < limit / 3 {
      cut := limit;
    }
  }

  lemma SplitRound(rest: string, limit: nat, next: string)
    requires limit >= 100 && |rest| > limit && next == TrimNewlines(rest[Cut(rest, limit)..])
    ensures Split(rest, limit) == [Piece(rest, limit)] + Split(next, limit)
  {
  }

  /** The same, with the chunks cut off before. */
  lemma NextRound(chunks: seq<string>, rest: string, limit: nat, next: string)
    requires limit >= 100 && |rest| > limit && next == TrimNewlines(rest[Cut(rest, limit)..])
    ensures |next| < |rest|
    ensures chunks + [Piece(rest, limit)] + Split(next, limit) == chunks + Split(rest, limit)
  {
    SplitRound(rest, limit, next);
    Regroup(chunks, Piece(rest, limit), Split(next, limit));
  }

  lemma Regroup(chunks: seq<string>, piece: string, more: seq<string>)
    ensures chunks + [piece] + more == chunks + ([piece] + more)
  {
  }

  lemma LastRound(rest: string, limit: nat)
    requires limit >= 100 && 0 < |rest| <= limit
    ensures Split(rest, limit) == [rest]
  {
  }

  method SplitTelegramText(text: Option<string>, requested: int) returns (chunks: seq<string>)
    ensures chunks == Split(if text.None? then "" else text.value, Max(100, requested))
  {
    var s := if text.None? then "" else text.value;
    if s == "" {
      return [];
    }
    var limit: nat := Max(100, requested);
    if |s| <= limit {
      return [s];
    }
    chunks := [];
    var rest := s;
    while rest != ""
      invariant chunks + Split(rest, limit) == Split(s, limit)
      decreases |rest|
    {
      if |rest| <= limit {
        LastRound(rest, limit);
        chunks := chunks + [rest];
        return;
      }
      var cut := FindBreak(rest[..limit], limit);
      assert cut == Break(rest, limit);
      var piece := TrimRight(rest[..cut]);
      if piece == "" {
        piece := rest[..limit];
        cut := limit;
      }
      assert piece == Piece(rest, limit) && cut == Cut(rest, limit);
      NextRound(chunks, rest, limit, TrimNewlines(rest[cut..]));
      chunks := chunks + [piece];
      rest := TrimNewlines(rest[cut..]);
    }
  }

  // ------------------------------------------------------------------ what the chunks are

  predicate AllSpace(s: string) {
    forall c | c in s :: IsSpace(c)
  }

  lemma {:induction false} TrimRightShape(s: string)
    ensures TrimRight(s) <= s
    ensures AllSpace(s[|TrimRight(s)|..])
    ensures TrimRight(s) != "" ==> !IsSpace(TrimRight(s)[|TrimRight(s)| - 1])
  {
    if s != "" && IsSpace(s[|s| - 1]) {
      TrimRightShape(s[..|s| - 1]);
      var k := |TrimRight(s)|;
      assert s[k..] == s[..|s| - 1][k..] + [s[|s| - 1]];
    }
  }

  /** The chunks are slices of the text, in order, with nothing but whitespace between and after them. */
  predicate Slices(s: string, chunks: seq<string>, starts: seq<nat>)
    decreases |chunks|
  {
    && |starts| == |chunks|
    && if chunks == [] then AllSpace(s)
       else
         && starts[0] + |chunks[0]| <= |s|
         && AllSpace(s[..starts[0]])
         && s[starts[0]..starts[0] + |chunks[0]|] == chunks[0]
         && Slices(s[starts[0] + |chunks[0]|..], chunks[1..], starts[1..])
  }

  function Shifted(starts: seq<nat>, gap: int): seq<nat> {
    if starts == [] || starts[0] + gap < 0 then starts else starts[0 := starts[0] + gap]
  }

  lemma {:induction false} SlicesAfterGap(gap: string, s: string, chunks: seq<string>, starts: seq<nat>)
    requires AllSpace(gap) && Slices(s, chunks, starts)
    ensures Slices(gap + s, chunks, Shifted(starts, |gap|))
  {
    if chunks != [] {
      var shifted := Shifted(starts, |gap|);
      assert shifted[1..] == starts[1..];
      assert (gap + s)[..shifted[0]] == gap + s[..starts[0]];
      assert (gap + s)[shifted[0] + |chunks[0]|..] == s[starts[0] + |chunks[0]|..];
      assert (gap + s)[shifted[0]..shifted[0] + |chunks[0]|] == s[starts[0]..starts[0] + |chunks[0]|];
    }
  }

  /** One round of the loop: the piece is a non-empty prefix within the limit, and what lies between it
      and the rest is whitespace. */
  lemma RoundShape(s: string, limit: nat, piece: string, next: string, gap: string)
    requires limit >= 100 && |s| > limit
    requires piece == Piece(s, limit) && next == TrimNewlines(s[Cut(s, limit)..])
    requires |piece| <= |s| - |next| ==> gap == s[|piece|..|s| - |next|]
    ensures 0 < |piece| <= limit
    ensures s == piece + gap + next && AllSpace(gap)
  {
    PieceIsPrefix(s, limit);
    TrimNewlinesShape(s[Cut(s, limit)..]);
    GapBetween(s, Cut(s, limit), piece, next, gap);
  }

  lemma PieceIsPrefix(s: string, limit: nat)
    requires limit >= 100 && |s| > limit
    ensures 0 < |Piece(s, limit)| <= limit
    ensures Piece(s, limit) <= s[..Cut(s, limit)] && AllSpace(s[..Cut(s, limit)][|Piece(s, limit)|..])
  {
    TrimRightShape(s[..Break(s, limit)]);
  }

  lemma GapBetween(s: string, cut: nat, piece: string, next: string, gap: string)
    requires cut <= |s| && piece <= s[..cut] && AllSpace(s[..cut][|piece|..])
    requires |next| <= |s[cut..]|
    requires s[cut..][|s[cut..]| - |next|..] == next && AllSpace(s[cut..][..|s[cut..]| - |next|])
    requires gap == s[|piece|..|s| - |next|]
    ensures s == piece + gap + next && AllSpace(gap)
  {
    var k := |s[cut..]| - |next|;
    assert s[|s| - |next|..] == s[cut..][k..];
    assert s[..|piece|] == s[..cut][..|piece|];
    assert gap == s[..cut][|piece|..] + s[cut..][..k];
  }

  lemma SlicesCons(s: string, piece: string, gap: string, next: string, chunks: seq<string>, starts: seq<nat>)
    requires s == piece + gap + next && AllSpace(gap) && Slices(next, chunks, starts)
    ensures Slices(s, [piece] + chunks, [0] + Shifted(starts, |gap|))
  {
    SlicesAfterGap(gap, next, chunks, starts);
    var all, froms := [piece] + chunks, [0] + Shifted(starts, |gap|);
    assert all[1..] == chunks && froms[1..] == Shifted(starts, |gap|);
    assert s[0..|piece|] == piece && s[|piece|..] == gap + next;
  }

  /** The chunks cover the text up to whitespace. */
  lemma {:induction false} SplitIsSlices(s: string, limit: nat) returns (starts: seq<nat>)
    requires limit >= 100
    ensures Slices(s, Split(s, limit), starts)
    decreases |s|
  {
    if |s| > limit {
      var piece, next := Piece(s, limit), TrimNewlines(s[Cut(s, limit)..]);
      var gap := if |piece| <= |s| - |next| then s[|piece|..|s| - |next|] else "";
      RoundShape(s, limit, piece, next, gap);
      SplitRound(s, limit, next);
      var after := SplitIsSlices(next, limit);
      SlicesCons(s, piece, gap, next, Split(next, limit), after);
      starts := [0] + Shifted(after, |gap|);
    } else if s != "" {
      LastRound(s, limit);
      assert s[0..|s|] == s && s[|s|..] == "";
      starts := [0];
    } else {
      starts := [];
    }
  }

  /** Every chunk is non-empty and fits the limit. */
  lemma {:induction false} ChunksFit(s: string, limit: nat)
    requires limit >= 100
    ensures forall c | c in Split(s, limit) :: 0 < |c| <= limit
    decreases |s|
  {
    if |s| > limit {
      var next := TrimNewlines(s[Cut(s, limit)..]);
      PieceIsPrefix(s, limit);
      SplitRound(s, limit, next);
      ChunksFit(next, limit);
    } else if s != "" {
      LastRound(s, limit);
    }
  }

  function Visible(s: string): string {
    if s == "" then ""
    else if IsSpace(s[0]) then Visible(s[1..])
    else [s[0]] + Visible(s[1..])
  }

  function Flatten(chunks: seq<string>): string {
    if chunks == [] then "" else chunks[0] + Flatten(chunks[1..])
  }

  lemma {:induction false} VisibleConcat(a: string, b: string)
    ensures Visible(a + b) == Visible(a) + Visible(b)
  {
    if a == "" {
      assert a + b == b;
    } else {
      assert (a + b)[1..] == a[1..] + b;
      VisibleConcat(a[1..], b);
    }
  }

  lemma {:induction false} SpaceIsInvisible(s: string)
    requires AllSpace(s)
    ensures Visible(s) == ""
  {
    if s != "" {
      SpaceIsInvisible(s[1..]);
    }
  }

  lemma {:induction false} SlicesKeepVisible(s: string, chunks: seq<string>, starts: seq<nat>)
    requires Slices(s, chunks, starts)
    ensures Visible(Flatten(chunks)) == Visible(s)
    decreases |chunks|
  {
    if chunks == [] {
      SpaceIsInvisible(s);
    } else {
      var from, to := starts[0], starts[0] + |chunks[0]|;
      SlicesKeepVisible(s[to..], chunks[1..], starts[1..]);
      SpaceIsInvisible(s[..from]);
      assert s == s[..from] + (chunks[0] + s[to..]);
      VisibleConcat(s[..from], chunks[0] + s[to..]);
      VisibleConcat(chunks[0], s[to..]);
      VisibleConcat(chunks[0], Flatten(chunks[1..]));
    }
  }

  /** Nothing visible is lost, added or moved. */
  lemma SplitKeepsVisible(s: string, limit: nat)
    requires limit >= 100
    ensures Visible(Flatten(Split(s, limit))) == Visible(s)
  {
    var starts := SplitIsSlices(s, limit);
    SlicesKeepVisible(s, Split(s, limit), starts);
  }

  lemma EachRoundUsesAThird(s: string, limit: nat, next: string)
    requires limit >= 100 && |s| > limit && next == TrimNewlines(s[Cut(s, limit)..])
    ensures |next| + limit / 3 <= |s| && |Split(s, limit)| == 1 + |Split(next, limit)|
  {
    SplitRound(s, limit, next);
  }

  lemma NothingMore(limit: nat)
    requires limit >= 100
    ensures Split("", limit) == []
  {
  }

  /** n chunks, all but the last using up a third of the limit, fit into a text of this length. */
  predicate Fill(n: nat, third: nat, length: nat) {
    (n - 1) * third < length
  }

  lemma OneMore(n: nat, third: nat, fewer: nat, all: nat)
    requires (if n == 0 then fewer == 0 else Fill(n, third, fewer)) && fewer + third <= all && third > 0
    ensures Fill(n + 1, third, all)
  {
    assert n * third == (n - 1) * third + third;
  }

  /** Every chunk but the last uses up a third of the limit. */
  lemma {:induction false} FewChunks(s: string, limit: nat, third: nat)
    requires limit >= 100 && third == limit / 3 && s != ""
    ensures Fill(|Split(s, limit)|, third, |s|)
    decreases |s|
  {
    if |s| > limit {
      hide Cut, Split, Fill;
      var next := TrimNewlines(s[Cut(s, limit)..]);
      EachRoundUsesAThird(s, limit, next);
      if next == "" {
        NothingMore(limit);
      } else {
        FewChunks(next, limit, third);
      }
      OneMore(|Split(next, limit)|, third, |next|, |s|);
    } else {
      LastRound(s, limit);
    }
  }

  lemma CountFromFill(n: nat, third: nat, length: nat)
    requires third > 0 && Fill(n, third, length)
    ensures n <= length / third + 1
  {
    QuotientReaches(length, third, n - 1);
  }

  lemma ChunkCount(s: string, limit: nat)
    requires limit >= 100
    ensures |Split(s, limit)| <= |s| / (limit / 3) + 1
  {
    hide Split, Fill;
    if s == "" {
      NothingMore(limit);
    } else {
      FewChunks(s, limit, limit / 3);
      CountFromFill(|Split(s, limit)|, limit / 3, |s|);
    }
  }

  /** Some occurrence of a separator lies outside the first third. */
  ghost predicate Offers(window: string, sep: string, third: nat) {
    exists i :: i >= third && OccursAt(window, sep, i)
  }

  /** b is the last occurrence of a separator. */
  ghost predicate LastOf(window: string, sep: string, b: nat) {
    OccursAt(window, sep, b) && forall i :: OccursAt(window, sep, i) ==> i <= b
  }

  lemma OfferTaken(window: string, sep: string, third: nat)
    ensures RFind(window, sep) >= third <==> Offers(window, sep, third)
    ensures RFind(window, sep) >= third ==> LastOf(window, sep, RFind(window, sep))
  {
    RFindIsLast(window, sep);
  }

  /** The break is the last blank line if one lies outside the first third, else the last line end, else
      the last space, else the end of the window. */
  lemma BreakIsPreferred(window: string, limit: nat)
    requires |window| == limit
    ensures var b, third := WindowBreak(window, limit), limit / 3;
            if Offers(window, "\n\n", third) then LastOf(window, "\n\n", b)
            else if Offers(window, "\n", third) then LastOf(window, "\n", b)
            else if Offers(window, " ", third) then LastOf(window, " ", b)
            else b == limit
  {
    OfferTaken(window, "\n\n", limit / 3);
    OfferTaken(window, "\n", limit / 3);
    OfferTaken(window, " ", limit / 3);
    hide RFind, OccursAt, Offers, LastOf;
  }

  lemma BreakBeforeEnd(window: string, limit: nat)
    requires |window| == limit && WindowBreak(window, limit) < limit
    ensures IsSpace(window[WindowBreak(window, limit)])
  {
    var b := WindowBreak(window, limit);
    RFindIsLast(window, "\n\n");
    RFindIsLast(window, "\n");
    RFindIsLast(window, " ");
    if RFind(window, "\n\n") == b {
      assert window[b] == window[b..b + 2][0];
    } else {
      assert window[b] == window[b..b + 1][0];
    }
  }

  lemma BreakAtEnd(window: string, limit: nat, i: nat)
    requires |window| == limit && WindowBreak(window, limit) == limit && limit / 3 <= i < limit
    ensures window[i] != '\n' && window[i] != ' '
  {
    assert window[i..i + 1] == [window[i]];
    assert window[i] == '\n' ==> OccursAt(window, "\n", i);
    assert window[i] == ' ' ==> OccursAt(window, " ", i);
    RFindIsLast(window, "\n");
    RFindIsLast(window, " ");
  }

  /** A word is cut in two only when the window has neither a line end nor a space after its first
      third, or when everything before the break found there is whitespace. */
  lemma WordsCutOnlyWithoutBreak(s: string, limit: nat)
    requires limit >= 100 && |s| > limit
    requires var c := Cut(s, limit); c > 0 && !IsSpace(s[c - 1]) && !IsSpace(s[c])
    ensures Cut(s, limit) == limit
    ensures || (forall i | limit / 3 <= i < limit :: s[i] != '\n' && s[i] != ' ')
            || AllSpace(s[..Break(s, limit)])
  {
    var window, b := s[..limit], Break(s, limit);
    if b < limit {
      BreakBeforeEnd(window, limit);
      TrimRightShape(s[..b]);
    } else {
      forall i | limit / 3 <= i < limit ensures s[i] != '\n' && s[i] != ' ' {
        BreakAtEnd(window, limit, i);
      }
    }
  }

  lemma {:induction false} SplitStartsWithText(s: string, limit: nat)
    requires limit >= 100 && s != ""
    ensures Split(s, limit) != [] && Split(s, limit)[0] != "" && Split(s, limit)[0][0] == s[0]
  {
    if |s| > limit {
      PieceIsPrefix(s, limit);
    }
  }

  ghost predicate Trimmed(chunks: seq<string>, limit: nat) {
    && (forall i | 0 < i < |chunks| :: chunks[i] != "" && chunks[i][0] != '\n')
    && (forall i | 0 <= i < |chunks| - 1 :: chunks[i] != "" &&
          (IsSpace(chunks[i][|chunks[i]| - 1]) ==> |chunks[i]| == limit))
  }

  lemma TrimmedCons(piece: string, more: seq<string>, limit: nat)
    requires Trimmed(more, limit) && piece != ""
    requires more != [] ==> more[0] != "" && more[0][0] != '\n'
    requires IsSpace(piece[|piece| - 1]) ==> |piece| == limit
    ensures Trimmed([piece] + more, limit)
  {
  }

  /** Chunks are trimmed: none but the first begins with a line end, and each but the last ends in a visible
      character, unless it is a whole window because only blanks come before its break. */
  lemma {:induction false} ChunksAreTrimmed(s: string, limit: nat)
    requires limit >= 100
    ensures Trimmed(Split(s, limit), limit)
    decreases |s|
  {
    if |s| > limit {
      hide Split, Piece, TrimNewlines, Cut, Trimmed, IsSpace;
      var next := TrimNewlines(s[Cut(s, limit)..]);
      EachRoundUsesAThird(s, limit, next);
      SplitRound(s, limit, next);
      PieceEnds(s, limit);
      TrimmedStart(s[Cut(s, limit)..]);
      ChunksAreTrimmed(next, limit);
      if next != "" {
        SplitStartsWithText(next, limit);
      } else {
        NothingMore(limit);
      }
      TrimmedCons(Piece(s, limit), Split(next, limit), limit);
    }
  }

  lemma PieceEnds(s: string, limit: nat)
    requires limit >= 100 && |s| > limit
    ensures Piece(s, limit) != ""
    ensures IsSpace(Piece(s, limit)[|Piece(s, limit)| - 1]) ==> |Piece(s, limit)| == limit
  {
    TrimRightShape(s[..Break(s, limit)]);
  }

  lemma {:induction false} TrimmedStart(s: string)
    ensures TrimNewlines(s) != "" ==> TrimNewlines(s)[0] != '\n'
  {
    if s != "" && s[0] == '\n' {
      TrimmedStart(s[1..]);
    }
  }

  // ------------------------------------------------------------------ one message for a long text

  /** What is appended to a text of which only the first chunk is shown. */
  const MORE_FOLLOWS :=
    "\n\U{2026}(\U{64a}\U{62a}\U{628}\U{639} \U{641}\U{64a} \U{627}\U{644}\U{631}\U{633}\U{627}\U{626}\U{644} "
    + "\U{627}\U{644}\U{62a}\U{627}\U{644}\U{64a}\U{629})"

  /** The text that `safe_edit_text` puts into the one message it edits. */
  function EditBody(body: string): string {
    if |body| <= TELEGRAM_MAX_MESSAGE then body
    else
      var parts := Split(body, TELEGRAM_MAX_MESSAGE - 20);
      var first := if parts != [] then parts[0] else body[..TELEGRAM_MAX_MESSAGE - 20];
      if |parts| > 1 then TrimRight(first) + MORE_FOLLOWS else first
  }

  lemma {:induction false} TrimRightStops(s: string, n: nat)
    requires n <= |s|
    ensures |TrimRight(s)| > n <==> exists i :: n <= i < |s| && !IsSpace(s[i])
  {
    TrimRightShape(s);
    var k := |TrimRight(s)|;
    if k > n {
      assert !IsSpace(s[k - 1]);
    } else {
      forall i | n <= i < |s| ensures IsSpace(s[i]) {
        assert s[i] == s[k..][i - k];
      }
    }
  }

  /** The 20 characters set aside are fewer than the 27 appended: the edited message fits exactly if the text
      does, or if nothing visible of its first chunk lies beyond character 4069, or if no second one follows. */
  lemma EditFitsIff(body: string)
    ensures |EditBody(body)| <= 4096 <==>
            || |body| <= 4096
            || (forall i | 4069 <= i < Cut(body, 4076) :: IsSpace(body[i]))
            || TrimNewlines(body[Cut(body, 4076)..]) == ""
  {
    if |body| > 4096 {
      hide Cut, Split, TrimNewlines, TrimRight, IsSpace;
      FirstChunk(body, 4076);
      VisibleUpTo(body, Cut(body, 4076), 4069);
      assert |MORE_FOLLOWS| == 27;
    }
  }

  lemma VisibleUpTo(s: string, cut: nat, n: nat)
    requires cut <= |s|
    ensures |TrimRight(s[..cut])| <= n <==> forall i | n <= i < cut :: IsSpace(s[i])
  {
    if n <= cut {
      TrimRightStops(s[..cut], n);
    } else {
      TrimRightShape(s[..cut]);
    }
  }

  lemma FirstChunk(s: string, limit: nat)
    requires limit >= 100 && |s| > limit
    ensures Cut(s, limit) <= limit
    ensures Split(s, limit) != [] && |Split(s, limit)[0]| <= limit
    ensures TrimRight(Split(s, limit)[0]) == TrimRight(s[..Cut(s, limit)])
    ensures |Split(s, limit)| == 1 <==> TrimNewlines(s[Cut(s, limit)..]) == ""
  {
    var next := TrimNewlines(s[Cut(s, limit)..]);
    SplitRound(s, limit, next);
    if next != "" {
      SplitStartsWithText(next, limit);
    }
    TrimTwice(s[..Break(s, limit)]);
    PieceIsPrefix(s, limit);
  }

  lemma {:induction false} TrimTwice(s: string)
    ensures TrimRight(TrimRight(s)) == TrimRight(s)
  {
    TrimRightShape(s);
  }

  /** Any text longer than a message without a blank or a line end is an input for which it does not fit. */
  lemma UnbrokenTextDoesNotFit(body: string)
    requires |body| > 4096 && forall c | c in body :: !IsSpace(c)
    ensures |EditBody(body)| == 4103
  {
    var window := body[..4076];
    assert forall i | 0 <= i < 4076 :: window[i] in body;
    if Break(body, 4076) < 4076 {
      BreakBeforeEnd(window, 4076);
    }
    assert body[4076] in body;
    TrimRightStops(window, 4075);
    FirstChunk(body, 4076);
    assert |MORE_FOLLOWS| == 27;
  }
}
