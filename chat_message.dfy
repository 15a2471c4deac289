/** How one transcript entry is shown: its text split around `@` tokens,
    which are highlighted, the token-count line, and the style chosen by
    sender. Markdown rendering is not modelled. */
module ChatMessageView {
  import opened Protocol
  import opened Whitespace
  import ChatPage

  // ---------------------------------------------------------------------
  // Splitting on `(@\S+)`

  /** `@\S+` matches at position `x`. */
  predicate TokenAt(s: string, x: nat) {
    x + 1 < |s| && s[x] == '@' && !IsSpace(s[x + 1])
  }

  /** The first position at or after `p` where `@\S+` matches, or `|s|`. */
  function NextToken(s: string, p: nat): (x: nat)
    requires p <= |s|
    ensures p <= x <= |s|
    ensures x < |s| ==> TokenAt(s, x)
    ensures forall y :: p <= y < x ==> !TokenAt(s, y)
    decreases |s| - p
  {
    if p == |s| || TokenAt(s, p) then p else NextToken(s, p + 1)
  }

  /** `s[p..].split(/(@\S+)/g)`: the text before each match, then the match
      (the capturing group keeps it), then the text after the last match. */
  function SplitFrom(s: string, p: nat): seq<string>
    requires p <= |s|
    decreases |s| - p
  {
    var x := NextToken(s, p);
    if x == |s| then [s[p..]]
    else
      var e := RunEnd(s, x + 1);
      [s[p..x], s[x..e]] + SplitFrom(s, e)
  }

  /** `s.split(/(@\S+)/g)`: its parts have the shape of a partition and
      join to the text. */
  function Split(s: string): (parts: seq<string>)
    ensures IsPartition(parts) && Concat(parts) == s
  {
    SplitFromIsPartition(s, 0);
    SplitFromConcat(s, 0);
    SplitFrom(s, 0)
  }

  function Concat(parts: seq<string>): string
    decreases |parts|
  {
    if parts == [] then "" else parts[0] + Concat(parts[1..])
  }

  /** A match of `@\S+`. */
  predicate IsToken(t: string) {
    |t| >= 2 && t[0] == '@' && NoSpace(t)
  }

  /** No `@` followed by a non-whitespace character inside `t`. */
  predicate TokenFree(t: string) {
    forall k :: 0 <= k < |t| - 1 ==> !(t[k] == '@' && !IsSpace(t[k + 1]))
  }

  /** The shape of a split of a text: text, match, text, ..., text, where
      each text holds no match, a text before a match does not end in `@`
      (the match would have started there), and a match is maximal: what
      follows it starts with whitespace or is the empty end of the text. */
  predicate IsPartition(parts: seq<string>)
    decreases |parts|
  {
    |parts| % 2 == 1 && TokenFree(parts[0]) &&
    (|parts| > 1 ==>
      IsToken(parts[1]) &&
      (|parts[0]| > 0 ==> parts[0][|parts[0]| - 1] != '@') &&
      ((parts[2] == "" && |parts| == 3) || (|parts[2]| > 0 && IsSpace(parts[2][0]))) &&
      IsPartition(parts[2..]))
  }

  /** Joining the parts gives back the text. */
  lemma {:induction false} SplitFromConcat(s: string, p: nat)
    requires p <= |s|
    ensures Concat(SplitFrom(s, p)) == s[p..]
    decreases |s| - p
  {
    var x := NextToken(s, p);
    if x < |s| {
      SplitFromConcat(s, RunEnd(s, x + 1));
      SplitFromConcatStep(s, p);
    } else {
      SplitFromLast(s, p);
    }
  }

  lemma SplitFromConcatStep(s: string, p: nat)
    requires p <= |s| && NextToken(s, p) < |s|
    requires var e := RunEnd(s, NextToken(s, p) + 1); Concat(SplitFrom(s, e)) == s[e..]
    ensures Concat(SplitFrom(s, p)) == s[p..]
  {
    var x := NextToken(s, p);
    var e := RunEnd(s, x + 1);
    SplitFromStep(s, p);
    ConcatStep(s, p, x, e, SplitFrom(s, e));
  }

  lemma SplitFromStep(s: string, p: nat)
    requires p <= |s| && NextToken(s, p) < |s|
    ensures var x := NextToken(s, p); var e := RunEnd(s, x + 1);
      SplitFrom(s, p) == [s[p..x], s[x..e]] + SplitFrom(s, e)
  {
  }

  lemma SplitFromLast(s: string, p: nat)
    requires p <= |s| && NextToken(s, p) == |s|
    ensures SplitFrom(s, p) == [s[p..]] && Concat([s[p..]]) == s[p..]
  {
    assert [s[p..]][1..] == [];
  }

  /** A text part and a match in front of parts that join to the rest of
      the text join to the text from the part's start. */
  lemma ConcatStep(s: string, p: nat, x: nat, e: nat, rest: seq<string>)
    requires p <= x <= e <= |s| && Concat(rest) == s[e..]
    ensures Concat([s[p..x], s[x..e]] + rest) == s[p..]
  {
    ConcatPair(s[p..x], s[x..e], rest);
    assert s[x..] == s[x..e] + s[e..];
    assert s[p..] == s[p..x] + s[x..];
  }

  lemma ConcatPair(a: string, b: string, rest: seq<string>)
    ensures Concat([a, b] + rest) == a + (b + Concat(rest))
  {
    var all := [a, b] + rest;
    assert all[1..] == [b] + rest;
    assert all[1..][1..] == rest;
  }

  lemma PartitionCons(a: string, t: string, rest: seq<string>)
    requires TokenFree(a) && IsToken(t) && (|a| > 0 ==> a[|a| - 1] != '@')
    requires IsPartition(rest)
    requires (rest[0] == "" && |rest| == 1) || (|rest[0]| > 0 && IsSpace(rest[0][0]))
    ensures IsPartition([a, t] + rest)
  {
    var all := [a, t] + rest;
    assert all[2..] == rest;
  }

  lemma FirstPartTokenFree(s: string, p: nat)
    requires p <= |s|
    ensures TokenFree(s[p..NextToken(s, p)])
    ensures var x := NextToken(s, p); x < |s| && p < x ==> s[x - 1] != '@'
  {
    var x := NextToken(s, p);
    var first := s[p..x];
    forall k | 0 <= k < |first| - 1 ensures !(first[k] == '@' && !IsSpace(first[k + 1])) {
      assert !TokenAt(s, p + k);
    }
    if x < |s| && p < x {
      assert !TokenAt(s, x - 1);
    }
  }

  lemma {:induction false} SplitFromIsPartition(s: string, p: nat)
    requires p <= |s|
    ensures |SplitFrom(s, p)| >= 1 && SplitFrom(s, p)[0] == s[p..NextToken(s, p)]
    ensures IsPartition(SplitFrom(s, p))
    decreases |s| - p
  {
    var x := NextToken(s, p);
    if x < |s| {
      var e := RunEnd(s, x + 1);
      SplitFromIsPartition(s, e);
      SplitFromStep(s, p);
      if e == |s| {
        SplitFromLast(s, e);
      }
      MatchStep(s, p, SplitFrom(s, e));
    } else {
      SplitFromLast(s, p);
      FirstPartTokenFree(s, p);
      assert s[p..x] == s[p..];
    }
  }

  /** The text before a match and the match, put in front of the split of
      what follows the match, form a partition. */
  lemma MatchStep(s: string, p: nat, rest: seq<string>)
    requires p <= |s| && NextToken(s, p) < |s|
    requires var e := RunEnd(s, NextToken(s, p) + 1);
      IsPartition(rest) && |rest| >= 1 && rest[0] == s[e..NextToken(s, e)] && (e == |s| ==> |rest| == 1)
    ensures var x := NextToken(s, p); var e := RunEnd(s, x + 1);
      IsPartition([s[p..x], s[x..e]] + rest)
  {
    var x := NextToken(s, p);
    var e := RunEnd(s, x + 1);
    FirstPartTokenFree(s, p);
    assert IsToken(s[x..e]) by {
      assert s[x..e] == [s[x]] + s[x + 1..e];
    }
    if e < |s| {
      assert !TokenAt(s, e);
      assert rest[0][0] == s[e];
    }
    PartitionCons(s[p..x], s[x..e], rest);
  }

  lemma {:induction false} ConcatCons(s: string, p: nat, parts: seq<string>)
    requires p <= |s| && |parts| > 0 && Concat(parts) == s[p..]
    ensures p + |parts[0]| <= |s|
    ensures s[p..p + |parts[0]|] == parts[0]
    ensures Concat(parts[1..]) == s[p + |parts[0]|..]
  {
    assert s[p..] == parts[0] + Concat(parts[1..]);
    assert s[p..][..|parts[0]|] == parts[0];
    assert s[p..][|parts[0]|..] == Concat(parts[1..]);
  }

  /** The scan stops at the first match. */
  lemma {:induction false} NextTokenAt(s: string, p: nat, x: nat)
    requires p <= x <= |s| && (x == |s| || TokenAt(s, x))
    requires forall y :: p <= y < x ==> !TokenAt(s, y)
    ensures NextToken(s, p) == x
    decreases x - p
  {
    if p < x {
      NextTokenAt(s, p + 1, x);
    }
  }

  /** In a partition that joins to `s[p..]`, the scan for the next match
      stops right after the first text part. */
  lemma PartitionHead(s: string, p: nat, parts: seq<string>)
    requires p <= |s| && IsPartition(parts) && Concat(parts) == s[p..]
    ensures p + |parts[0]| <= |s|
    ensures NextToken(s, p) == p + |parts[0]|
  {
    var a := parts[0];
    var x := p + |a|;
    ConcatCons(s, p, parts);
    if |parts| == 1 {
      assert Concat(parts[1..]) == "";
      forall y | p <= y < x ensures !TokenAt(s, y) {
        if y < x - 1 {
          assert s[y] == a[y - p] && s[y + 1] == a[y - p + 1];
        }
      }
    } else {
      var t := parts[1];
      ConcatCons(s, x, parts[1..]);
      assert s[x] == t[0] && s[x + 1] == t[1];
      forall y | p <= y < x ensures !TokenAt(s, y) {
        if y < x - 1 {
          assert s[y] == a[y - p] && s[y + 1] == a[y - p + 1];
        } else {
          assert s[y] == a[|a| - 1];
        }
      }
    }
    NextTokenAt(s, p, x);
  }

  /** ... and the match that follows runs exactly to the end of the second
      part. */
  lemma PartitionTokenEnd(s: string, x: nat, t: string, rest: seq<string>)
    requires IsToken(t) && IsPartition(rest)
    requires (rest[0] == "" && |rest| == 1) || (|rest[0]| > 0 && IsSpace(rest[0][0]))
    requires x <= |s| && Concat([t] + rest) == s[x..]
    ensures x + |t| <= |s| && s[x..x + |t|] == t
    ensures RunEnd(s, x + 1) == x + |t|
    ensures Concat(rest) == s[x + |t|..]
  {
    var e := x + |t|;
    ConcatCons(s, x, [t] + rest);
    assert ([t] + rest)[1..] == rest;
    assert NoSpace(s[x + 1..e]) by {
      assert s[x + 1..e] == t[1..];
    }
    if rest[0] == "" && |rest| == 1 {
      assert rest[1..] == [];
    } else {
      ConcatCons(s, e, rest);
      assert s[e] == rest[0][0];
    }
    RunEndAt(s, x + 1, e);
  }

  /** Conversely, a partition of the text is its split: the split is the
      only sequence of parts with this shape that joins to the text. */
  lemma {:induction false} PartitionIsSplitFrom(s: string, p: nat, parts: seq<string>)
    requires p <= |s| && IsPartition(parts) && Concat(parts) == s[p..]
    ensures parts == SplitFrom(s, p)
    decreases |parts|
  {
    if |parts| == 1 {
      PartitionLast(s, p, parts);
    } else {
      var e := PartitionStep(s, p, parts);
      PartitionIsSplitFrom(s, e, parts[2..]);
      SplitFromStep(s, p);
      assert parts == parts[..2] + parts[2..];
    }
  }

  lemma PartitionLast(s: string, p: nat, parts: seq<string>)
    requires p <= |s| && IsPartition(parts) && Concat(parts) == s[p..] && |parts| == 1
    ensures parts == SplitFrom(s, p)
  {
    PartitionHead(s, p, parts);
    ConcatCons(s, p, parts);
    var x := p + |parts[0]|;
    assert Concat(parts[1..]) == "";
    assert x == |s| && s[p..] == s[p..x];
    assert parts == [s[p..]];
  }

  /** A partition of more than one part starts with the text before the
      first match and the match itself. */
  lemma PartitionStep(s: string, p: nat, parts: seq<string>) returns (e: nat)
    requires p <= |s| && IsPartition(parts) && Concat(parts) == s[p..] && |parts| > 1
    ensures NextToken(s, p) < |s| && e == RunEnd(s, NextToken(s, p) + 1)
    ensures parts[..2] == [s[p..NextToken(s, p)], s[NextToken(s, p)..e]]
    ensures e <= |s| && IsPartition(parts[2..]) && Concat(parts[2..]) == s[e..]
  {
    var a, t, rest := parts[0], parts[1], parts[2..];
    var x := p + |a|;
    PartitionHead(s, p, parts);
    ConcatCons(s, p, parts);
    assert parts[1..] == [t] + rest;
    PartitionTail(parts);
    PartitionTokenEnd(s, x, t, rest);
    e := x + |t|;
    assert parts[..2] == [a, t];
  }

  lemma PartitionTail(parts: seq<string>)
    requires IsPartition(parts) && |parts| > 1
    ensures IsToken(parts[1]) && IsPartition(parts[2..])
    ensures (parts[2..][0] == "" && |parts[2..]| == 1) || (|parts[2..][0]| > 0 && IsSpace(parts[2..][0][0]))
  {
  }

  /** The split of a text is exactly the partition that joins to it. */
  lemma SplitCharacterization(s: string, parts: seq<string>)
    ensures parts == Split(s) <==> IsPartition(parts) && Concat(parts) == s
  {
    if IsPartition(parts) && Concat(parts) == s {
      PartitionIsSplitFrom(s, 0, parts);
    }
  }

  // ---------------------------------------------------------------------
  // Highlighting

  /** The value `highlightText` receives: a string, or anything else. */
  datatype Value<T> = Text(s: string) | Other(v: T)

  /** A part as rendered: highlighted or plain. */
  datatype Piece = Plain(text: string) | Highlighted(text: string)

  datatype Rendered<T> = Unchanged(v: Value<T>) | Pieces(pieces: seq<Piece>)

  function Mark(part: string): Piece {
    if |part| > 0 && part[0] == '@' then Highlighted(part) else Plain(part)
  }

  /** A string becomes pieces whose texts join back to it; any other value
      comes back unchanged. */
  function HighlightText<T>(v: Value<T>): (r: Rendered<T>)
    ensures r.Pieces? <==> v.Text?
    ensures v.Other? ==> r == Unchanged(v)
    ensures v.Text? ==> Concat(Texts(r.pieces)) == v.s
    ensures v.Text? ==> Texts(r.pieces) == Split(v.s)
    ensures v.Text? ==> forall i :: 0 <= i < |r.pieces| ==> r.pieces[i] == Mark(Split(v.s)[i])
  {
    match v
    case Other(_) => Unchanged(v)
    case Text(s) =>
      var parts := Split(s);
      var pieces := seq(|parts|, i requires 0 <= i < |parts| => Mark(parts[i]));
      assert Texts(pieces) == parts;
      Pieces(pieces)
  }

  function Texts(pieces: seq<Piece>): seq<string> {
    seq(|pieces|, i requires 0 <= i < |pieces| => pieces[i].text)
  }

  /** A non-string value is returned as it is. A string is cut into an odd
      number of pieces that join to the string; the pieces at odd indices
      are the matches and are all highlighted; a piece at an even index is
      highlighted exactly when it starts with `@` (an `@` followed by
      whitespace or ending the text). */
  lemma HighlightSpec<T>(v: Value<T>)
    ensures v.Other? ==> HighlightText(v) == Unchanged(v)
    ensures v.Text? ==>
      var pieces := HighlightText(v).pieces;
      Texts(pieces) == Split(v.s) &&
      |pieces| % 2 == 1 &&
      Concat(Texts(pieces)) == v.s &&
      (forall i :: 0 <= i < |pieces| && i % 2 == 1 ==> pieces[i].Highlighted? && IsToken(pieces[i].text)) &&
      (forall i :: 0 <= i < |pieces| && i % 2 == 0 ==>
        (pieces[i].Highlighted? <==> |pieces[i].text| > 0 && pieces[i].text[0] == '@'))
  {
    if v.Text? {
      var parts := Split(v.s);
      var pieces := HighlightText(v).pieces;
      assert Texts(pieces) == parts;
      forall i | 0 <= i < |pieces| && i % 2 == 1 ensures IsToken(parts[i]) {
        PartitionOddTokens(parts, i);
      }
    }
  }

  lemma {:induction false} PartitionOddTokens(parts: seq<string>, i: nat)
    requires IsPartition(parts) && i < |parts| && i % 2 == 1
    ensures IsToken(parts[i])
    decreases i
  {
    if i > 1 {
      assert parts[2..][i - 2] == parts[i];
      PartitionOddTokens(parts[2..], i - 2);
    }
  }

  /** Scenario: in "@ hi" the `@` is followed by whitespace, so nothing
      matches, yet the single piece starts with `@` and is highlighted. */
  lemma BareAtIsHighlighted()
    ensures HighlightText<int>(Text("@ hi")) == Pieces([Highlighted("@ hi")])
  {
    var s := "@ hi";
    assert !TokenAt(s, 0) && !TokenAt(s, 1) && !TokenAt(s, 2) && !TokenAt(s, 3);
    assert NextToken(s, 0) == 4;
    assert Split(s) == [s];
  }

  // ---------------------------------------------------------------------
  // Token counts and style

  /** The token line under an entry: the request count of a user entry,
      or the response count of an `ai` entry (shown even when absent). */
  datatype TokenLine = RequestLine(tokens: nat) | ResponseLine(count: Option<nat>)

  function TokenLineOf(m: ChatPage.Message): (line: Option<TokenLine>)
    ensures m.sender == ChatPage.System ==> line == None
    ensures line.Some? && line.value.RequestLine? ==> m.sender == ChatPage.User && line.value.tokens > 0
    ensures m.sender == ChatPage.User && m.requestTokens == Some(0) ==> line == None
  {
    if m.sender == ChatPage.User && m.requestTokens.Some? && m.requestTokens.value > 0 then
      Some(RequestLine(m.requestTokens.value))
    else if m.sender == ChatPage.Ai then Some(ResponseLine(m.responseTokens))
    else None
  }

  datatype Style = AiStyle | UserStyle

  /** `system` entries are styled like the user's. */
  function StyleOf(m: ChatPage.Message): (style: Style)
    ensures style == AiStyle <==> m.sender == ChatPage.Ai
  {
    if m.sender == ChatPage.Ai then AiStyle else UserStyle
  }

  /** After a chat send, the user's entry shows a request line exactly when
      the reply is an answer with a positive prompt count; the reply shows
      the completion count and the AI style if it is an answer, and no line
      and the user style if it is a notice. */
  lemma {:induction false} TokenLinesAfterSend(messages: seq<ChatPage.Message>, cache: map<string, Option<string>>,
                                               message: string, control: ChatPage.ControlCall,
                                               fetch: ChatPage.DocsFetch, chat: ChatPage.ChatCall)
    requires ChatPage.WellFormedControl(control) && !ChatPage.IsCommand(message)
    ensures var t := ChatPage.Send(messages, cache, message, control, fetch, chat);
      var reply := ChatPage.Interpret(chat);
      |t.messages| == |messages| + 2 &&
      (TokenLineOf(t.messages[|messages|]).Some? <==> reply.Answer? && reply.promptTokens > 0) &&
      (reply.Answer? && reply.promptTokens > 0 ==> TokenLineOf(t.messages[|messages|]) == Some(RequestLine(reply.promptTokens))) &&
      (reply.Answer? ==> TokenLineOf(t.messages[|messages| + 1]) == Some(ResponseLine(Some(reply.completionTokens)))
                         && StyleOf(t.messages[|messages| + 1]) == AiStyle) &&
      (reply.Notice? ==> TokenLineOf(t.messages[|messages| + 1]) == None
                         && StyleOf(t.messages[|messages| + 1]) == UserStyle)
  {
    ChatPage.ChatTurn(messages, cache, message, control, fetch, chat);
  }
}
