// The JSON string escaper and the matching extractor of coping_ai.c. A character stands for one
// byte of a C string; the terminating zero is not part of a string value.
module Escape {
  import opened Words

  const NUL := '\0'
  const SOH := 1 as char
  const RESULT_SIZE := 2048

  predicate CString(s: string) {
    NUL !in s
  }

  /** Control characters that have no short escape. */
  predicate OtherControl(c: char) {
    c < ' ' && c != '\n' && c != '\r' && c != '\t'
  }

  predicate Clean(s: string) {
    forall c | c in s :: !OtherControl(c)
  }

  function HexDigit(n: nat): char
    requires n < 16
  {
    if n < 10 then '0' + n as char else 'a' + (n - 10) as char
  }

  /** The escape of one character. */
  function Esc(c: char): (e: string)
    ensures 1 <= |e| <= 6 && (!OtherControl(c) ==> |e| <= 2)
  {
    if c == '"' then "\\\""
    else if c == '\\' then "\\\\"
    else if c == '\n' then "\\n"
    else if c == '\r' then "\\r"
    else if c == '\t' then "\\t"
    else if c < ' ' then "\\u00" + [HexDigit(c as int / 16), HexDigit(c as int % 16)]
    else [c]
  }

  function Escaped(s: string): string {
    if |s| == 0 then "" else Esc(s[0]) + Escaped(s[1..])
  }

  lemma {:induction false} EscapedAppend(s: string, t: string)
    ensures Escaped(s + t) == Escaped(s) + Escaped(t)
  {
    if |s| == 0 {
      assert s + t == t;
    } else {
      assert (s + t)[1..] == s[1..] + t;
      EscapedAppend(s[1..], t);
    }
  }

  lemma EscapedOne(c: char)
    ensures Escaped([c]) == Esc(c)
  {
    assert [c][1..] == "";
  }

  lemma EscapedSnoc(s: string, c: char)
    ensures Escaped(s + [c]) == Escaped(s) + Esc(c)
  {
    EscapedAppend(s, [c]);
    EscapedOne(c);
  }

  lemma {:induction false} EscapedLonger(s: string)
    ensures |Escaped(s)| >= |s|
  {
    if |s| > 0 {
      EscapedLonger(s[1..]);
    }
  }

  lemma EscapedRest(s: string, k: nat)
    requires k <= |s|
    ensures Escaped(s) == Escaped(s[..k]) + Escaped(s[k..]) && |Escaped(s[..k])| + |s| - k <= |Escaped(s)|
  {
    assert s[..k] + s[k..] == s;
    EscapedAppend(s[..k], s[k..]);
    EscapedLonger(s[k..]);
  }

  lemma NothingEscaped()
    ensures Escaped("") == "" && Echoed("") == ""
  {
  }

  /** No six-character escape starts where the loop still goes on but it no longer fits. */
  predicate InBounds(src: string, size: nat) {
    forall k | 0 <= k < |src| && OtherControl(src[k]) ::
      |Escaped(src[..k])| + 4 >= size || |Escaped(src[..k])| + 6 < size
  }

  /** Where the loop goes on, it writes the escape of one more character, and when that fits. */
  lemma OneMore(src: string, k: nat, size: nat)
    requires k < |src| && |Escaped(src[..k])| + 4 < size
    ensures Escaped(src[..k + 1]) == Escaped(src[..k]) + Esc(src[k])
    ensures |Escaped(src[..k + 1])| < size <==> !OtherControl(src[k]) || |Escaped(src[..k])| + 6 < size
  {
    assert src[..k + 1] == src[..k] + [src[k]];
    EscapedSnoc(src[..k], src[k]);
    EscShape(src[k]);
  }

  /** InBounds is exact: it says that wherever the loop goes on, it stays inside the buffer. */
  lemma StaysInBounds(src: string, size: nat)
    ensures InBounds(src, size) <==>
            forall k | 0 <= k < |src| && |Escaped(src[..k])| + 4 < size :: |Escaped(src[..k + 1])| < size
  {
    hide Escaped, Esc;
    forall k | 0 <= k < |src| && |Escaped(src[..k])| + 4 < size
      ensures |Escaped(src[..k + 1])| < size <==> !OtherControl(src[k]) || |Escaped(src[..k])| + 6 < size
    {
      OneMore(src, k, size);
    }
    if InBounds(src, size) {
    } else {
      var k :| 0 <= k < |src| && OtherControl(src[k])
        && |Escaped(src[..k])| + 4 < size <= |Escaped(src[..k])| + 6;
      assert |Escaped(src[..k + 1])| >= size;
    }
  }

  /** Strings without other control characters, and strings that fit as a whole, are in bounds. */
  lemma EnoughRoom(src: string, size: nat)
    requires Clean(src) || |Escaped(src)| + 3 < size
    ensures InBounds(src, size)
  {
    hide Escaped;
    forall k | 0 <= k < |src| && OtherControl(src[k])
      ensures |Escaped(src[..k])| + 4 >= size || |Escaped(src[..k])| + 6 < size
    {
      assert src[k] in src;
      SixFit(src, k);
    }
  }

  lemma SixFit(src: string, k: nat)
    requires k < |src| && OtherControl(src[k])
    ensures |Escaped(src[..k])| + 6 <= |Escaped(src)|
  {
    assert src[..k + 1] == src[..k] + [src[k]];
    EscapedSnoc(src[..k], src[k]);
    EscapedRest(src, k + 1);
  }

  function Repeat(c: char, n: nat): (s: string)
    ensures |s| == n && forall i | 0 <= i < n :: s[i] == c
  {
    seq(n, _ => c)
  }

  lemma {:induction false} RepeatLength(n: nat)
    ensures |Escaped(Repeat(SOH, n))| == 6 * n
  {
    if n > 0 {
      RepeatLength(n - 1);
      assert Repeat(SOH, n)[1..] == Repeat(SOH, n - 1);
    }
  }

  /** 128 control characters fit the text of the add-ons, and their escape leaves its 768 bytes. */
  lemma TooManyControls()
    ensures var s := Repeat(SOH, 128);
            CString(s) && |s| < 512 && !InBounds(s, 768)
  {
    var s := Repeat(SOH, 128);
    assert s[..127] == Repeat(SOH, 127);
    RepeatLength(127);
    assert OtherControl(s[127]);
    hide Escaped;
  }

  /** A character, or two, written by index. */
  method Put(dst: array<char>, at: nat, piece: string)
    requires at + |piece| <= dst.Length
    modifies dst
    ensures dst[..at + |piece|] == old(dst[..at]) + piece
  {
    forall i | 0 <= i < |piece| {
      dst[at + i] := piece[i];
    }
  }

  /** snprintf into the rest of the buffer: what does not fit with the terminator is cut. */
  method PutFormatted(dst: array<char>, at: nat, piece: string)
    requires at < dst.Length
    modifies dst
    ensures var n := if at + |piece| < dst.Length then |piece| else dst.Length - at - 1;
            dst[..at + n] == old(dst[..at]) + piece[..n] && dst[at + n] == NUL
  {
    var n := if at + |piece| < dst.Length then |piece| else dst.Length - at - 1;
    Put(dst, at, piece[..n]);
    dst[at + n] := NUL;
  }

  /** The number of characters the loop takes: it goes on while four more bytes would fit. */
  predicate Stops(src: string, size: nat, k: nat) {
    && k <= |src| && (k == |src| || |Escaped(src[..k])| + 4 >= size)
    && forall j | 0 <= j < k :: |Escaped(src[..j])| + 4 < size
  }

  /** Where the loop ends, its index is inside the buffer if and only if InBounds holds. */
  lemma EndsInBounds(src: string, size: nat, k: nat)
    requires Stops(src, size, k) && size > 0
    ensures |Escaped(src[..k])| < size <==> InBounds(src, size)
  {
    hide Escaped;
    NothingEscaped();
    assert src[..0] == "";
    if |Escaped(src[..k])| >= size {
      OneMore(src, k - 1, size);
      assert src[..k - 1 + 1] == src[..k];
    } else {
      forall j | 0 <= j < |src| && OtherControl(src[j])
        ensures |Escaped(src[..j])| + 4 >= size || |Escaped(src[..j])| + 6 < size
      {
        if j < k {
          OneMore(src, j, size);
          EscapedGrows(src, j + 1, k);
        } else {
          EscapedGrows(src, k, j);
        }
      }
    }
  }

  lemma EscapedGrows(src: string, i: nat, j: nat)
    requires i <= j <= |src|
    ensures |Escaped(src[..i])| <= |Escaped(src[..j])|
  {
    assert src[..j][..i] == src[..i];
    EscapedRest(src[..j], i);
  }

  /**
   * json_escape: writes the escape of a prefix, never half an escape, and terminates it; the
   * prefix is the whole source whenever its escape and three more characters leave room for the
   * terminator. The index is left inside the buffer exactly when InBounds holds; otherwise the
   * last escape is cut, and the place for the final terminator is outside.
   */
  method JsonEscape(src: string, dst: array<char>) returns (ghost k: nat, di: nat)
    requires CString(src) && dst.Length > 0
    modifies dst
    ensures Stops(src, dst.Length, k) && di == |Escaped(src[..k])|
    ensures di < dst.Length <==> InBounds(src, dst.Length)
    ensures di < dst.Length ==> dst[..di] == Escaped(src[..k]) && dst[di] == NUL
    ensures di >= dst.Length ==>
              dst[..dst.Length - 1] == Escaped(src[..k])[..dst.Length - 1] && dst[dst.Length - 1] == NUL
    ensures |Escaped(src)| + 3 < dst.Length ==> k == |src| && di < dst.Length
  {
    hide Escaped, Esc, OtherControl, InBounds;
    assert Escaped("") == "" by { NothingEscaped(); }
    var at, si := 0, 0;
    assert src[..0] == "" && dst[..0] == "";
    while si < |src| && at + 4 < dst.Length
      invariant 0 <= si <= |src| && at == |Escaped(src[..si])|
      invariant forall j | 0 <= j < si :: |Escaped(src[..j])| + 4 < dst.Length
      invariant at < dst.Length ==> dst[..at] == Escaped(src[..si])
      invariant at >= dst.Length ==>
                  dst[..dst.Length - 1] == Escaped(src[..si])[..dst.Length - 1] && dst[dst.Length - 1] == NUL
    {
      var c := src[si];
      OneMore(src, si, dst.Length);
      if |Esc(c)| <= 2 {
        Put(dst, at, Esc(c));
      } else {
        PutFormatted(dst, at, Esc(c));
      }
      at := at + |Esc(c)|;
      si := si + 1;
    }
    k, di := si, at;
    EndsInBounds(src, dst.Length, k);
    EscapedRest(src, si);
    if si == |src| {
      assert src[..si] == src;
    }
    if at < dst.Length {
      dst[at] := NUL;
    }
  }

  // ---------- Extraction ----------

  const TYPE_MARKER := "\"type\":\"text\""
  const TEXT_MARKER := "\"text\":\""

  /** strstr: the first place where the needle occurs, or -1. */
  function IndexOf(hay: string, needle: string): (i: int)
    ensures -1 <= i && (i >= 0 ==> i <= |hay| && needle <= hay[i..])
  {
    if needle <= hay then 0
    else if |hay| == 0 then -1
    else
      var i := IndexOf(hay[1..], needle);
      if i < 0 then -1 else i + 1
  }

  lemma {:induction false} IndexOfIsFirst(hay: string, needle: string)
    ensures forall j | 0 <= j <= |hay| && needle <= hay[j..] :: 0 <= IndexOf(hay, needle) <= j
  {
    forall j | 0 <= j <= |hay| && needle <= hay[j..]
      ensures 0 <= IndexOf(hay, needle) <= j
    {
      if j == 0 {
        assert hay[0..] == hay;
      } else {
        IndexOfIsFirst(hay[1..], needle);
        assert hay[1..][j - 1..] == hay[j..];
      }
    }
  }

  /** What the extractor makes of the character after a backslash. */
  function Unescape(c: char): char {
    if c == 'n' then '\n' else if c == 'r' then '\r' else if c == 't' then '\t' else c
  }

  /** The value up to the closing quote, at most `room` characters of it. */
  function Scan(t: string, room: nat): string {
    if |t| == 0 || room == 0 then ""
    else if t[0] == '\\' && |t| > 1 then [Unescape(t[1])] + Scan(t[2..], room - 1)
    else if t[0] == '"' then ""
    else [t[0]] + Scan(t[1..], room - 1)
  }

  /** The text a response carries, as the extractor finds it. */
  function Extracted(json: string): Option<string> {
    var t := IndexOf(json, TYPE_MARKER);
    if t < 0 then None
    else
      var u := IndexOf(json[t..], TEXT_MARKER);
      if u < 0 then None else Some(Scan(json[t + u + |TEXT_MARKER|..], RESULT_SIZE - 4))
  }

  /** extract_text_from_response, with the memory it asks for granted. */
  method ExtractText(json: string) returns (text: Option<string>)
    requires CString(json)
    ensures text == Extracted(json)
  {
    hide Scan, IndexOf;
    var typeMarker := IndexOf(json, TYPE_MARKER);
    if typeMarker < 0 {
      return None;
    }
    var textMarker := IndexOf(json[typeMarker..], TEXT_MARKER);
    if textMarker < 0 {
      return None;
    }
    var value := ReadValue(json, typeMarker + textMarker + |TEXT_MARKER|);
    return Some(value);
  }

  /** How much of the input the next character of the value takes, and what it is. */
  function Width(t: string): nat
    requires |t| > 0
  {
    if t[0] == '\\' && |t| > 1 then 2 else 1
  }

  function Head(t: string): char
    requires |t| > 0
  {
    if t[0] == '\\' && |t| > 1 then Unescape(t[1]) else t[0]
  }

  lemma ScanStep(t: string, room: nat)
    ensures |t| == 0 || room == 0 || t[0] == '"' ==> Scan(t, room) == ""
    ensures |t| > 0 && room > 0 && t[0] != '"' ==> Scan(t, room) == [Head(t)] + Scan(t[Width(t)..], room - 1)
  {
  }

  /** The loop over the value, from the character after its opening quote. */
  method ReadValue(json: string, start: nat) returns (value: string)
    requires start <= |json|
    ensures value == Scan(json[start..], RESULT_SIZE - 4)
  {
    hide Scan;
    var result := new char[RESULT_SIZE];
    var ri, p := 0, start;
    ghost var all := Scan(json[start..], RESULT_SIZE - 4);
    while p < |json| && ri + 4 < RESULT_SIZE
      invariant start <= p <= |json| && 0 <= ri <= RESULT_SIZE - 4
      invariant all == result[..ri] + Scan(json[p..], RESULT_SIZE - 4 - ri)
    {
      ghost var before, rest := result[..ri], json[p..];
      ScanStep(rest, RESULT_SIZE - 4 - ri);
      assert rest[Width(rest)..] == json[p + Width(rest)..];
      if json[p] == '\\' && p + 1 < |json| {
        p := p + 1;
        result[ri] := Unescape(json[p]);
      } else if json[p] == '"' {
        break;
      } else {
        result[ri] := json[p];
      }
      assert result[..ri + 1] == before + [Head(rest)];
      ri := ri + 1;
      p := p + 1;
    }
    ScanStep(json[p..], RESULT_SIZE - 4 - ri);
    assert all == result[..ri];
    result[ri] := NUL;
    return result[..ri];
  }

  // ---------- Round trip ----------

  /** What comes back for one character: itself, or the tail of a \u escape. */
  function Echo(c: char): (e: string)
    ensures |e| >= 1 && (OtherControl(c) <==> e != [c])
  {
    if OtherControl(c) then "u00" + [HexDigit(c as int / 16), HexDigit(c as int % 16)] else [c]
  }

  function Echoed(s: string): string {
    if |s| == 0 then "" else Echo(s[0]) + Echoed(s[1..])
  }

  function Take(s: string, n: nat): string {
    if n < |s| then s[..n] else s
  }

  /** Characters that are neither special nor at the end are copied one for one. */
  lemma {:induction false} ScanPlain(plain: string, t: string, room: nat)
    requires '\\' !in plain && '"' !in plain
    ensures Scan(plain + t, room) == if room <= |plain| then plain[..room] else plain + Scan(t, room - |plain|)
  {
    hide Scan;
    if |plain| == 0 {
      assert plain + t == t && "" + Scan(t, room) == Scan(t, room);
      ScanStep(t, 0);
    } else if room > 0 {
      PlainHead(plain[0], plain[1..] + t, room);
      assert plain + t == [plain[0]] + (plain[1..] + t);
      ScanPlain(plain[1..], t, room - 1);
    } else {
      ScanStep(plain + t, 0);
    }
  }

  lemma PlainHead(c: char, t: string, room: nat)
    requires c != '\\' && c != '"' && room > 0
    ensures Scan([c] + t, room) == [c] + Scan(t, room - 1)
  {
    assert ([c] + t)[1..] == t;
  }

  /** The three shapes of an escape. */
  lemma EscShape(c: char)
    ensures |Esc(c)| == 6 ==> OtherControl(c) && Esc(c) == "\\" + Echo(c)
    ensures |Esc(c)| == 2 ==> Esc(c)[0] == '\\' && Unescape(Esc(c)[1]) == c && Echo(c) == [c]
    ensures |Esc(c)| == 1 ==> Esc(c) == [c] == Echo(c) && c != '\\' && c != '"'
    ensures |Esc(c)| in {1, 2, 6}
  {
  }

  lemma ScanPair(x: char, plain: string, t: string, room: nat)
    requires '\\' !in plain && '"' !in plain
    ensures var e := [Unescape(x)] + plain;
            Scan(['\\', x] + plain + t, room) == if room <= |e| then e[..room] else e + Scan(t, room - |e|)
  {
    hide Scan, Unescape;
    var u, e := ['\\', x] + plain + t, [Unescape(x)] + plain;
    ScanStep(u, room);
    PairHead(x, plain + t);
    assert u == ['\\', x] + (plain + t);
    if room > 0 {
      ScanPlain(plain, t, room - 1);
      if room <= |e| {
        assert e[..room] == [Unescape(x)] + plain[..room - 1];
      } else {
        assert e + Scan(t, room - |e|) == [Unescape(x)] + (plain + Scan(t, room - |e|));
      }
    }
  }

  /** The head of a text that begins with a backslash and one more character. */
  lemma PairHead(x: char, t: string)
    ensures var u := ['\\', x] + t;
            u[0] == '\\' && Head(u) == Unescape(x) && u[Width(u)..] == t
  {
  }

  lemma ScanOne(c: char, t: string, room: nat)
    ensures Scan(Esc(c) + t, room) == if room <= |Echo(c)| then Echo(c)[..room] else Echo(c) + Scan(t, room - |Echo(c)|)
  {
    hide *;
    EscShape(c);
    if |Esc(c)| == 6 {
      SixShape(c);
      ScanPair('u', HexTail(c), t, room);
    } else if |Esc(c)| == 2 {
      assert ['\\', Esc(c)[1]] + "" == Esc(c) && [Unescape(Esc(c)[1])] + "" == Echo(c);
      ScanPair(Esc(c)[1], "", t, room);
    } else {
      ScanPlain([c], t, room);
    }
  }

  /** The four digits of a \u escape. */
  function HexTail(c: char): string
    requires OtherControl(c)
  {
    ['0', '0', HexDigit(c as int / 16), HexDigit(c as int % 16)]
  }

  lemma SixShape(c: char)
    requires OtherControl(c)
    ensures '\\' !in HexTail(c) && '"' !in HexTail(c)
    ensures Esc(c) == ['\\', 'u'] + HexTail(c) && Echo(c) == [Unescape('u')] + HexTail(c)
  {
  }

  /** Scanning an escaped string up to its closing quote gives its echo, as far as there is room. */
  lemma {:induction false} ScanEscaped(s: string, rest: string, room: nat)
    ensures Scan(Escaped(s) + "\"" + rest, room) == Take(Echoed(s), room)
  {
    hide Scan, Esc, Echo, Escaped, Echoed;
    if |s| == 0 {
      NothingEscaped();
      assert "" + "\"" + rest == "\"" + rest;
      ScanStep("\"" + rest, room);
    } else {
      var t := Escaped(s[1..]) + "\"" + rest;
      FirstEscaped(s);
      assert Esc(s[0]) + Escaped(s[1..]) + "\"" + rest == Esc(s[0]) + t;
      ScanOne(s[0], t, room);
      if room > |Echo(s[0])| {
        ScanEscaped(s[1..], rest, room - |Echo(s[0])|);
      }
    }
  }

  lemma FirstEscaped(s: string)
    requires |s| > 0
    ensures Escaped(s) == Esc(s[0]) + Escaped(s[1..]) && Echoed(s) == Echo(s[0]) + Echoed(s[1..])
  {
  }

  lemma {:induction false} CleanEcho(s: string)
    ensures Clean(s) ==> Echoed(s) == s
    ensures |Echoed(s)| >= |s|
    ensures !Clean(s) ==> exists i :: 0 <= i < |s| && Echoed(s)[i] != s[i]
  {
    if |s| > 0 {
      var rest := s[1..];
      CleanEcho(rest);
      if Clean(s) {
        assert Clean(rest) && s == [s[0]] + rest;
      } else if OtherControl(s[0]) {
        assert Echoed(s)[0] == 'u' != s[0];
      } else {
        assert !Clean(rest) by { assert s == [s[0]] + rest; }
        var i :| 0 <= i < |rest| && Echoed(rest)[i] != rest[i];
        assert Echoed(s)[i + 1] != s[i + 1];
      }
    }
  }

  /** Escaping and extracting undo each other exactly for clean strings that fit the result. */
  lemma RoundTrip(s: string, rest: string)
    ensures Scan(Escaped(s) + "\"" + rest, RESULT_SIZE - 4) == s <==> Clean(s) && |s| <= RESULT_SIZE - 4
    ensures Clean(s) ==> Scan(Escaped(s) + "\"" + rest, RESULT_SIZE - 4) == Take(s, RESULT_SIZE - 4)
  {
    ScanEscaped(s, rest, RESULT_SIZE - 4);
    CleanEcho(s);
  }

  lemma IndexOfAt(hay: string, needle: string, n: nat)
    requires n <= |hay| && needle <= hay[n..]
    requires forall j | 0 <= j < n :: !(needle <= hay[j..])
    ensures IndexOf(hay, needle) == n
  {
    IndexOfIsFirst(hay, needle);
  }

  /**
   * A whole response: whatever fields stand before, between and after the two markers, the text
   * escaped behind the first text marker that follows the first type marker is what comes back.
   */
  lemma ResponseText(json: string, t: nat, u: nat, s: string, rest: string)
    requires t <= |json| && IndexOf(json, TYPE_MARKER) == t && IndexOf(json[t..], TEXT_MARKER) == u
    requires json[t + u + |TEXT_MARKER|..] == Escaped(s) + "\"" + rest
    ensures Extracted(json) == Some(s) <==> Clean(s) && |s| <= RESULT_SIZE - 4
    ensures Clean(s) ==> Extracted(json) == Some(Take(s, RESULT_SIZE - 4))
  {
    hide Scan, Escaped, Clean, IndexOf;
    RoundTrip(s, rest);
  }

  /** A response as the service sends it: the markers, a comma between them, then the text. */
  lemma AdjacentMarkers(json: string, before: string, s: string, rest: string)
    requires json == before + (TYPE_MARKER + "," + TEXT_MARKER + (Escaped(s) + "\"" + rest))
    requires IndexOf(json, TYPE_MARKER) == |before|
    ensures Extracted(json) == Some(s) <==> Clean(s) && |s| <= RESULT_SIZE - 4
  {
    hide Scan, Escaped, Clean;
    var tail := Escaped(s) + "\"" + rest;
    var hay := TYPE_MARKER + "," + TEXT_MARKER + tail;
    assert json[|before|..] == hay;
    FirstText(hay, tail);
    var n := |TYPE_MARKER| + 1;
    assert json[|before| + n + |TEXT_MARKER|..] == hay[n + |TEXT_MARKER|..] == tail;
    ResponseText(json, |before|, n, s, rest);
  }

  lemma FirstText(hay: string, tail: string)
    requires hay == TYPE_MARKER + "," + TEXT_MARKER + tail
    ensures IndexOf(hay, TEXT_MARKER) == |TYPE_MARKER| + 1
  {
    assert hay[|TYPE_MARKER| + 1..] == TEXT_MARKER + tail;
    NoEarlierText(hay, tail);
    hide IndexOf;
    IndexOfAt(hay, TEXT_MARKER, |TYPE_MARKER| + 1);
  }

  lemma NoEarlierText(hay: string, tail: string)
    requires hay == TYPE_MARKER + "," + TEXT_MARKER + tail
    ensures forall j | 0 <= j < |TYPE_MARKER| + 1 :: !(TEXT_MARKER <= hay[j..])
  {
    assert hay[..15] == "\"type\":\"text\",\"";
    forall j | 0 <= j < |TYPE_MARKER| + 1
      ensures !(TEXT_MARKER <= hay[j..])
    {
      var i := if hay[j] != '"' then 0 else if hay[j + 1] != 't' then 1 else if hay[j + 2] != 'e' then 2 else 6;
      Mismatch(TEXT_MARKER, hay[j..], i);
    }
  }

  lemma Mismatch(needle: string, t: string, i: nat)
    requires i < |needle| && i < |t| && needle[i] != t[i]
    ensures !(needle <= t)
  {
  }

  // ---------- What the markers and the escapes mean ----------

  /** Nothing is extracted exactly when no type marker has a text marker at or behind it. */
  lemma NothingExtracted(json: string)
    ensures Extracted(json).None? <==>
            forall t, u | 0 <= t <= u <= |json| :: !(TYPE_MARKER <= json[t..] && TEXT_MARKER <= json[u..])
  {
    hide Scan, IndexOf;
    var t := IndexOf(json, TYPE_MARKER);
    IndexOfIsFirst(json, TYPE_MARKER);
    if t >= 0 {
      var u := IndexOf(json[t..], TEXT_MARKER);
      IndexOfIsFirst(json[t..], TEXT_MARKER);
      if u >= 0 {
        assert json[t..][u..] == json[t + u..];
        assert TYPE_MARKER <= json[t..] && TEXT_MARKER <= json[t + u..];
      } else {
        forall v, w | 0 <= v <= w <= |json|
          ensures !(TYPE_MARKER <= json[v..] && TEXT_MARKER <= json[w..])
        {
          if TYPE_MARKER <= json[v..] {
            assert json[t..][w - t..] == json[w..];
          }
        }
      }
    }
  }

  function HexValue(c: char): nat {
    if '0' <= c <= '9' then c as int - '0' as int
    else if 'a' <= c <= 'f' then c as int - 'a' as int + 10
    else 0
  }

  /** What a reader of JSON strings makes of an escaped text (RFC 8259, section 7). */
  function Decode(t: string): string {
    if |t| == 0 then ""
    else if t[0] != '\\' then [t[0]] + Decode(t[1..])
    else if |t| >= 6 && t[1] == 'u' then
      var code := 0x1000 * HexValue(t[2]) + 0x100 * HexValue(t[3]) + 0x10 * HexValue(t[4]) + HexValue(t[5]);
      (if code < 0xD800 then [code as char] else "") + Decode(t[6..])
    else if |t| >= 2 then
      var c := if t[1] == 'n' then '\n' else if t[1] == 'r' then '\r' else if t[1] == 't' then '\t' else t[1];
      [c] + Decode(t[2..])
    else ""
  }

  lemma DecodeOne(c: char, t: string)
    ensures Decode(Esc(c) + t) == [c] + Decode(t)
  {
    var e := Esc(c) + t;
    if OtherControl(c) {
      assert e[6..] == t;
    } else if |Esc(c)| == 2 {
      assert e[2..] == t;
    } else {
      assert e[1..] == t;
    }
  }

  /** For every source, a reader of JSON strings gets back what was escaped. */
  lemma {:induction false} EscapedIsRead(s: string)
    ensures Decode(Escaped(s)) == s
  {
    hide Decode, Esc;
    if |s| > 0 {
      FirstEscaped(s);
      EscapedIsRead(s[1..]);
      DecodeOne(s[0], Escaped(s[1..]));
      assert s == [s[0]] + s[1..];
    } else {
      DecodeNothing();
    }
  }

  lemma DecodeNothing()
    ensures Decode("") == "" && Escaped("") == ""
  {
  }

  /** And no control character is left in it. */
  lemma {:induction false} NoControls(s: string)
    ensures forall c | c in Escaped(s) :: c >= ' '
  {
    if |s| > 0 {
      NoControls(s[1..]);
    }
  }

  /** A backslash before any other character is dropped, and one at the end of the input is kept. */
  lemma OtherBackslash(c: char, t: string, room: nat)
    requires room > 0
    ensures c !in "nrt" ==> Scan(['\\', c] + t, room) == [c] + Scan(t, room - 1)
    ensures Scan("\\", room) == "\\"
  {
    PairHead(c, t);
    ScanStep(['\\', c] + t, room);
    ScanStep("\\", room);
    hide IndexOf;
  }
}
