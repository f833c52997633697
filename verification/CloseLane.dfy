/** The fragment-safe writers of the log lane (`Head`, `Capped`, `close_lane` in
    `rust/bridge/src/logging.rs`). */
module CloseLane {
  // A line reaches a writer in fragments, each the bytes of a string; a writer that
  // answers an error is sent no more of it. Main results: `RenderHead`, `RenderCapped`
  // and `CloseLane` answer for the line, however it was cut, and `CutsAreCharacters`
  // says what a cut is in characters.

  import opened Bytes

  const HEAD: nat := 16
  const CAPPED: nat := 800

  /** A byte inside a character (section 3 of RFC 3629). */
  predicate Continues(b: byte) {
    0x80 <= b < 0xC0
  }

  /** `is_char_boundary`. */
  predicate IsCharBoundary(s: Bytes, i: nat) {
    i <= |s| && (i == 0 || i == |s| || !Continues(s[i]))
  }

  /** A string's bytes never start inside a character. */
  predicate Starts(s: Bytes) {
    s == [] || !Continues(s[0])
  }

  predicate AllStart(fragments: seq<Bytes>) {
    forall i :: 0 <= i < |fragments| ==> Starts(fragments[i])
  }

  function Line(fragments: seq<Bytes>): Bytes {
    if fragments == [] then [] else Line(fragments[..|fragments| - 1]) + fragments[|fragments| - 1]
  }

  /** One more fragment: the line so far, still a prefix of the whole. */
  lemma OnePieceMore(fragments: seq<Bytes>, i: nat)
    requires i < |fragments|
    ensures Line(fragments[..i + 1]) == Line(fragments[..i]) + fragments[i]
    ensures Line(fragments[..i + 1]) <= Line(fragments)
  {
    assert fragments[..i + 1][..i] == fragments[..i];
    LineSplits(fragments, i + 1);
  }

  /** The line is what has been sent and what has not; the rest starts clean. */
  lemma {:induction false} LineSplits(fragments: seq<Bytes>, i: nat)
    requires i <= |fragments|
    ensures Line(fragments) == Line(fragments[..i]) + Line(fragments[i..])
  {
    if i == |fragments| {
      assert fragments[..i] == fragments;
    } else {
      var n := |fragments| - 1;
      assert fragments[..n][..i] == fragments[..i];
      assert fragments[..n][i..] == fragments[i..][..n - i];
      LineSplits(fragments[..n], i);
    }
  }

  lemma {:induction false} LineStarts(fragments: seq<Bytes>)
    requires AllStart(fragments)
    ensures Starts(Line(fragments))
  {
    if fragments != [] {
      LineStarts(fragments[..|fragments| - 1]);
    }
  }

  // ---- Head ----

  class Head {
    const buf: array<byte>
    var len: nat

    ghost predicate Valid()
      reads this
    {
      buf.Length == HEAD && len <= HEAD
    }

    function Contents(): Bytes
      requires Valid()
      reads this, buf
    {
      buf[..len]
    }

    constructor ()
      ensures Valid() && fresh(buf) && Contents() == []
    {
      buf, len := new byte[HEAD](_ => 0), 0;
    }

    /** Takes what still fits; refuses more once full. */
    method WriteStr(s: Bytes) returns (ok: bool)
      requires Valid()
      modifies this, buf
      ensures Valid()
      ensures Contents() == old(Contents()) + s[..Min(|s|, HEAD - old(len))]
      ensures ok <==> len < HEAD
    {
      var take := Min(|s|, HEAD - len);
      ghost var before := buf[..len];
      for i := 0 to take
        invariant Valid() && len == old(len)
        invariant buf[..len + i] == before + s[..i]
      {
        buf[len + i] := s[i];
        assert buf[..len + i + 1] == buf[..len + i] + [s[i]];
        assert s[..i + 1] == s[..i] + [s[i]];
      }
      len := len + take;
      ok := len != HEAD;
    }
  }

  /** **The head is the line's first 16 bytes,** for every fragmentation. */
  method RenderHead(fragments: seq<Bytes>) returns (head: Bytes)
    ensures var line := Line(fragments); head == line[..Min(|line|, HEAD)]
  {
    var h := new Head();
    ghost var line := Line(fragments);
    for i := 0 to |fragments|
      invariant h.Valid() && fresh(h) && fresh(h.buf) && h.len < HEAD
      invariant h.Contents() == Line(fragments[..i])
    {
      ghost var before := h.Contents();
      OnePieceMore(fragments, i);
      HeadTakes(before, fragments[i], line);
      var ok := h.WriteStr(fragments[i]);
      head := h.Contents();
      assert head == before + fragments[i][..Min(|fragments[i]|, HEAD - |before|)] && |head| == h.len;
      if !ok {
        return;
      }
    }
    assert fragments[..|fragments|] == fragments;
    assert line[..|line|] == line;
    return h.Contents();
  }

  lemma HeadTakes(before: Bytes, s: Bytes, line: Bytes)
    requires before + s <= line && |before| < HEAD
    ensures var after := before + s[..Min(|s|, HEAD - |before|)];
      if |after| < HEAD then after == before + s else after == line[..Min(|line|, HEAD)]
  {
    assert s[..|s|] == s;
    var n := Min(|s|, HEAD - |before|);
    assert line[..|before| + n] == before + s[..n];
  }

  // ---- Capped ----

  /** The line's longest prefix of at most `cap` bytes that ends on a boundary. */
  predicate LongestCut(line: Bytes, cap: nat, r: Bytes) {
    && r <= line && |r| <= cap && IsCharBoundary(line, |r|)
    && forall i :: |r| < i <= |line| && i <= cap ==> !IsCharBoundary(line, i)
  }

  /** The longest cut of `s` that the room left after `before` takes. */
  predicate Took(before: Bytes, s: Bytes, take: nat, after: Bytes, whole: bool) {
    && |before| <= CAPPED && take <= |s|
    && LongestCut(s, CAPPED - |before|, s[..take])
    && after == before + s[..take]
    && (whole <==> take == |s|)
  }

  class Capped {
    var text: Bytes

    constructor ()
      ensures text == []
    {
      text := [];
    }

    /** Takes up to the room left, cut back to a character boundary. */
    method WriteStr(s: Bytes) returns (ok: bool)
      requires |text| <= CAPPED
      modifies this
      ensures exists take: nat :: Took(old(text), s, take, text, ok)
    {
      var room := CAPPED - |text|;
      var take: nat := Min(|s|, room);
      while !IsCharBoundary(s, take)
        invariant 0 <= take <= |s| && take <= room
        invariant forall i :: take < i <= |s| && i <= room ==> !IsCharBoundary(s, i)
        decreases take
      {
        take := take - 1;
      }
      text := text + s[..take];
      ok := take >= |s|;
      assert Took(old(text), s, take, text, ok);
    }
  }

  /** **The capped line is its longest prefix within 800 bytes on a character
      boundary,** for every fragmentation. */
  method RenderCapped(fragments: seq<Bytes>) returns (text: Bytes)
    requires AllStart(fragments)
    ensures LongestCut(Line(fragments), CAPPED, text)
  {
    var c := new Capped();
    for i := 0 to |fragments|
      invariant fresh(c) && |c.text| <= CAPPED
      invariant c.text == Line(fragments[..i])
    {
      var s := fragments[i];
      OnePieceMore(fragments, i);
      LineSplits(fragments, i + 1);
      LineStarts(fragments[i + 1..]);
      ghost var before := c.text;
      var ok := c.WriteStr(s);
      ghost var take: nat :| Took(before, s, take, c.text, ok);
      if !ok {
        CutInAFragment(before, s, Line(fragments[i + 1..]), CAPPED, take);
        return c.text;
      }
      assert s[..|s|] == s;
    }
    assert fragments[..|fragments|] == fragments;
    return c.text;
  }

  /** The longest cut of the fragment that did not fit is the longest of the line. */
  lemma CutInAFragment(sent: Bytes, s: Bytes, rest: Bytes, cap: nat, take: nat)
    requires |sent| <= cap && take < |s| && Starts(s) && Starts(rest) && LongestCut(s, cap - |sent|, s[..take])
    ensures LongestCut(sent + s + rest, cap, sent + s[..take])
  {
    var line := sent + s + rest;
    assert forall i :: 0 <= i < |s| ==> line[|sent| + i] == s[i];
    forall i | |sent| + take < i <= |line| && i <= cap
      ensures !IsCharBoundary(line, i)
    {
      assert !IsCharBoundary(s, Min(i - |sent|, |s|));
    }
  }

  // ---- the verdict ----

  /** "wRPC error: `". */
  const RPC_HEAD: Bytes := [119, 82, 80, 67, 32, 101, 114, 114, 111, 114, 58, 32, 96]

  /** "WebSocket ", the opening the four socket heads share. */
  const WEB_SOCKET: Bytes := [87, 101, 98, 83, 111, 99, 107, 101, 116, 32]

  /** "WebSocket " and then "error:", "connec", "dispat", "failed". */
  const SOCKET_HEADS: seq<Bytes> := [
    WEB_SOCKET + [101, 114, 114, 111, 114, 58],
    WEB_SOCKET + [99, 111, 110, 110, 101, 99],
    WEB_SOCKET + [100, 105, 115, 112, 97, 116],
    WEB_SOCKET + [102, 97, 105, 108, 101, 100]
  ]

  datatype Lane = Socket | Rpc

  predicate StartsWithAny(bytes: Bytes, heads: seq<Bytes>) {
    exists i :: 0 <= i < |heads| && heads[i] <= bytes
  }

  /** The lane of a whole line. */
  function LaneOf(line: Bytes): Option<Lane> {
    if RPC_HEAD <= line then Some(Rpc)
    else if StartsWithAny(line, SOCKET_HEADS) then Some(Socket)
    else None
  }

  /** A prefix no longer than the head shows in the head exactly when it shows in
      the line. */
  lemma HeadShows(p: Bytes, line: Bytes)
    requires |p| <= HEAD
    ensures p <= line <==> p <= line[..Min(|line|, HEAD)]
  {
    if p <= line {
      assert line[..Min(|line|, HEAD)][..|p|] == line[..|p|];
    }
  }

  /** Sixteen bytes decide: the verdict on the head is the verdict on the line. */
  lemma LaneOfHead(line: Bytes)
    ensures LaneOf(line[..Min(|line|, HEAD)]) == LaneOf(line)
  {
    var head := line[..Min(|line|, HEAD)];
    HeadShows(RPC_HEAD, line);
    forall i | 0 <= i < |SOCKET_HEADS|
      ensures SOCKET_HEADS[i] <= line <==> SOCKET_HEADS[i] <= head
    {
      HeadShows(SOCKET_HEADS[i], line);
    }
  }

  method AnyStarts(bytes: Bytes, heads: seq<Bytes>) returns (any: bool)
    ensures any <==> StartsWithAny(bytes, heads)
  {
    for i := 0 to |heads|
      invariant forall j :: 0 <= j < i ==> !(heads[j] <= bytes)
    {
      if heads[i] <= bytes {
        return true;
      }
    }
    return false;
  }

  /** **The lane depends on the line alone:** the verdict read from 16 bytes of
      fragments is that of the whole line. */
  method CloseLane(fragments: seq<Bytes>) returns (lane: Option<Lane>)
    ensures lane == LaneOf(Line(fragments))
  {
    var head := RenderHead(fragments);
    LaneOfHead(Line(fragments));
    if RPC_HEAD <= head {
      return Some(Rpc);
    }
    var any := AnyStarts(head, SOCKET_HEADS);
    return if any then Some(Socket) else None;
  }

  // ---- in characters ----

  /** One character in UTF-8 (section 3 of RFC 3629). */
  function Encode(c: char): (r: Bytes)
    ensures 1 <= |r| <= 4
    ensures !Continues(r[0]) && forall i :: 1 <= i < |r| ==> Continues(r[i])
  {
    var n := c as int;
    if n < 0x80 then [n]
    else if n < 0x800 then [0xC0 + n / 64, 0x80 + n % 64]
    else if n < 0x10000 then [0xE0 + n / 4096, 0x80 + n / 64 % 64, 0x80 + n % 64]
    else [0xF0 + n / 262144, 0x80 + n / 4096 % 64, 0x80 + n / 64 % 64, 0x80 + n % 64]
  }

  function Utf8(text: string): Bytes {
    if text == "" then [] else Utf8(text[..|text| - 1]) + Encode(text[|text| - 1])
  }

  /** A text's bytes start clean. */
  lemma {:induction false} TextStarts(text: string)
    ensures Starts(Utf8(text))
  {
    if text != "" {
      TextStarts(text[..|text| - 1]);
    }
  }

  lemma {:induction false} Utf8Append(a: string, b: string)
    ensures Utf8(a + b) == Utf8(a) + Utf8(b)
  {
    if b == "" {
      assert a + b == a;
    } else {
      assert (a + b)[..|a + b| - 1] == a + b[..|b| - 1];
      Utf8Append(a, b[..|b| - 1]);
    }
  }

  function Joined(texts: seq<string>): string {
    if texts == [] then "" else Joined(texts[..|texts| - 1]) + texts[|texts| - 1]
  }

  /** The fragments a formatter writes: strings, as their bytes. */
  function Spelled(texts: seq<string>): seq<Bytes> {
    if texts == [] then [] else Spelled(texts[..|texts| - 1]) + [Utf8(texts[|texts| - 1])]
  }

  /** However a text is cut into strings, the writers may be given them, and the line
      they write is the text. */
  lemma {:induction false} SpelledIsTheText(texts: seq<string>)
    ensures AllStart(Spelled(texts)) && Line(Spelled(texts)) == Utf8(Joined(texts))
  {
    if texts != [] {
      var front, last := texts[..|texts| - 1], texts[|texts| - 1];
      var all := Spelled(texts);
      SpelledIsTheText(front);
      TextStarts(last);
      Utf8Append(Joined(front), last);
      assert all[..|all| - 1] == Spelled(front) && all[|all| - 1] == Utf8(last);
    }
  }

  /** **A cut is a whole number of characters:** the byte boundaries of a text are
      exactly the ends of its prefixes. */
  lemma {:induction false} CutsAreCharacters(text: string, i: nat)
    ensures IsCharBoundary(Utf8(text), i) <==> exists k: nat :: k <= |text| && i == |Utf8(text[..k])|
  {
    if text == "" {
      assert text[..0] == "";
    } else {
      var front, last := text[..|text| - 1], Encode(text[|text| - 1]);
      CutsAreCharacters(front, i);
      assert text[..|text|] == text;
      assert forall k :: 0 <= k <= |front| ==> front[..k] == text[..k];
      if i > |Utf8(front)| {
        forall k: nat | k <= |front|
          ensures |Utf8(text[..k])| <= |Utf8(front)|
        {
          PrefixIsNoLonger(front, k);
        }
      }
    }
  }

  lemma PrefixIsNoLonger(text: string, k: nat)
    requires k <= |text|
    ensures |Utf8(text[..k])| <= |Utf8(text)|
  {
    assert text == text[..k] + text[k..];
    Utf8Append(text[..k], text[k..]);
  }
}
