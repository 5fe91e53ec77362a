/**
 * The string routines of the C library that the bindings rely on, on
 * character sequences: a NUL-terminated view of a buffer, strcspn with
 * "\n", strtok_r with " ", and strncpy into a fixed-width slot.
 */
module Text {
  import opened CTypes

  const NUL: char := '\0'

  /** n NUL characters. */
  function Zeros(n: nat): (z: string)
    ensures |z| == n && forall i | 0 <= i < n :: z[i] == NUL
  {
    seq(n, _ => NUL)
  }

  /** The buffer after its first |prefix| cells are overwritten by prefix. */
  function Overlay<T>(buf: seq<T>, prefix: seq<T>): (r: seq<T>)
    requires |prefix| <= |buf|
    ensures |r| == |buf|
    ensures forall i | 0 <= i < |buf| :: r[i] == if i < |prefix| then prefix[i] else buf[i]
  {
    prefix + buf[|prefix|..]
  }

  /** Index of the first NUL in b, or |b| if there is none. */
  function NulIndex(b: string): (n: nat)
    ensures n <= |b| && (n < |b| ==> b[n] == NUL)
    ensures forall j | 0 <= j < n :: b[j] != NUL
  {
    if b == [] || b[0] == NUL then 0 else 1 + NulIndex(b[1..])
  }

  /** The C string a buffer holds: its characters up to the first NUL. */
  function CString(b: string): (s: string)
    ensures |s| <= |b| && s == b[..|s|] && NUL !in s
    ensures |s| < |b| ==> b[|s|] == NUL
  {
    b[..NulIndex(b)]
  }

  /** A terminator right after the characters ends the C string there. */
  lemma CStringOfTerminated(s: string, rest: string)
    requires NUL !in s && (rest == [] || rest[0] == NUL)
    ensures CString(s + rest) == s
  {
    var b := s + rest;
    var n := |CString(b)|;
    assert b[..|s|] == s;
  }

  lemma {:induction false} NulIndexPadded(data: string, z: string)
    requires z == [] || z[0] == NUL
    ensures NulIndex(data + z) == NulIndex(data)
    decreases |data|
  {
    if data == [] {
      assert data + z == z;
    } else if data[0] != NUL {
      assert (data + z)[1..] == data[1..] + z;
      NulIndexPadded(data[1..], z);
    }
  }

  /** A zero-filled scratch buffer that pread wrote data into holds the C string of data. */
  lemma CStringOfScratch(data: string, m: nat)
    requires |data| <= m
    ensures CString(Overlay(Zeros(m), data)) == CString(data)
  {
    var z := Zeros(m - |data|);
    assert Overlay(Zeros(m), data) == data + z;
    NulIndexPadded(data, z);
    assert (data + z)[..NulIndex(data)] == data[..NulIndex(data)];
  }

  /** strcspn(b, "\n") on a buffer: the first newline or NUL, or |b| when there is none in the buffer. */
  function Strcspn(b: string): (n: nat)
    ensures n <= |b| && (n < |b| ==> b[n] == '\n' || b[n] == NUL)
    ensures forall j | 0 <= j < n :: b[j] != '\n' && b[j] != NUL
  {
    if b == [] || b[0] == '\n' || b[0] == NUL then 0 else 1 + Strcspn(b[1..])
  }

  /** buf[strcspn(buf, "\n")] = '\0', where the cell found lies inside the buffer. */
  function StripNewline(b: string): (r: string)
  {
    var n := Strcspn(b);
    if n < |b| then b[n := NUL] else b
  }

  /** After stripping, the C string is the line: everything before the first newline or NUL. */
  lemma StripGivesLine(b: string)
    ensures |StripNewline(b)| == |b|
    ensures CString(StripNewline(b)) == b[..Strcspn(b)]
    ensures '\n' !in CString(StripNewline(b))
    ensures forall j | 0 <= j < |b| && j != Strcspn(b) :: StripNewline(b)[j] == b[j]
  {
    var r := StripNewline(b);
    var n := Strcspn(b);
    var c := CString(r);
    assert r[..n] == b[..n];
  }

  // strtok_r(s, " ", &saveptr), one call at a time, on the C string s.

  /** The first position at or after p that is not a space. */
  function SkipSpaces(s: string, p: nat): (q: nat)
    requires p <= |s|
    ensures p <= q <= |s| && (q < |s| ==> s[q] != ' ')
    ensures forall j | p <= j < q :: s[j] == ' '
    decreases |s| - p
  {
    if p == |s| || s[p] != ' ' then p else SkipSpaces(s, p + 1)
  }

  /** The first position at or after p that is a space, or |s|. */
  function TokenEnd(s: string, p: nat): (q: nat)
    requires p <= |s|
    ensures p <= q <= |s| && (q < |s| ==> s[q] == ' ')
    ensures forall j | p <= j < q :: s[j] != ' '
    decreases |s| - p
  {
    if p == |s| || s[p] == ' ' then p else TokenEnd(s, p + 1)
  }

  /** A token and the position the save pointer is left at. */
  datatype Token = Token(text: string, next: nat)

  /**
   * t is the token strtok_r returns from p when the first non-space at or
   * after p is at q: it starts at q, runs to the next space or the end, and
   * the save pointer is left just past the space that ends it.
   */
  predicate TokenAt(s: string, p: nat, q: nat, t: Token)
  {
    && p <= q < |s| && (forall j | p <= j < q :: s[j] == ' ') && s[q] != ' '
    && q + |t.text| <= |s| && t.text == s[q..q + |t.text|]
    && (q + |t.text| == |s| || s[q + |t.text|] == ' ')
    && t.next == (if q + |t.text| < |s| then q + |t.text| + 1 else |s|)
  }

  /**
   * One strtok_r call resuming at p: skip spaces; nothing left gives NULL;
   * otherwise the token runs to the next space, which is overwritten by a
   * NUL so that the next call resumes just after it.
   */
  function NextToken(s: string, p: nat): (r: Option<Token>)
    requires p <= |s|
    ensures r.Some? ==> p < r.value.next <= |s| && |r.value.text| > 0 && ' ' !in r.value.text
    ensures r.None? <==> forall j | p <= j < |s| :: s[j] == ' '
    ensures r.Some? ==> TokenAt(s, p, SkipSpaces(s, p), r.value)
  {
    var q := SkipSpaces(s, p);
    if q == |s| then None
    else
      var e := TokenEnd(s, q);
      var t := s[q..e];
      assert t[0] == s[q];
      Some(Token(t, if e < |s| then e + 1 else e))
  }

  /** The tokens that successive strtok_r calls return from position p on. */
  function TokensFrom(s: string, p: nat): seq<string>
    requires p <= |s|
    decreases |s| - p
  {
    match NextToken(s, p)
    case None => []
    case Some(t) => [t.text] + TokensFrom(s, t.next)
  }

  /** The tokens strtok_r splits s into on ' '. */
  function Tokens(s: string): seq<string>
  {
    TokensFrom(s, 0)
  }

  /**
   * Where successive strtok_r calls stand after i tokens of toks: tok is
   * token i when there is one, the rest of toks follows its save pointer,
   * and NULL comes exactly after the last token.
   */
  predicate Cursor(s: string, tok: Option<Token>, toks: seq<string>, i: nat)
  {
    && i <= |toks|
    && (tok.None? ==> i == |toks|)
    && (tok.Some? ==>
          i < |toks| && tok.value.text == toks[i] && tok.value.next <= |s|
          && TokensFrom(s, tok.value.next) == toks[i + 1..])
  }

  lemma CursorStart(s: string)
    ensures Cursor(s, NextToken(s, 0), Tokens(s), 0)
  {
  }

  lemma CursorStep(s: string, tok: Token, toks: seq<string>, i: nat)
    requires Cursor(s, Some(tok), toks, i)
    ensures Cursor(s, NextToken(s, tok.next), toks, i + 1)
  {
    assert toks[i + 1..] == TokensFrom(s, tok.next);
    match NextToken(s, tok.next)
    case None =>
    case Some(t) =>
      assert toks[i + 1..][1..] == toks[i + 2..];
  }

  /** s without its spaces. */
  function RemoveSpaces(s: string): (r: string)
    ensures ' ' !in r
  {
    if s == [] then [] else (if s[0] == ' ' then [] else [s[0]]) + RemoveSpaces(s[1..])
  }

  function Concat(ts: seq<string>): string
  {
    if ts == [] then [] else ts[0] + Concat(ts[1..])
  }

  lemma {:induction false} SkipDropsSpaces(s: string, p: nat, q: nat)
    requires p <= q <= |s|
    requires forall j | p <= j < q :: s[j] == ' '
    ensures RemoveSpaces(s[p..]) == RemoveSpaces(s[q..])
    decreases q - p
  {
    if p < q {
      assert s[p..][1..] == s[p + 1..];
      SkipDropsSpaces(s, p + 1, q);
    }
  }

  lemma {:induction false} WordKept(s: string, q: nat, e: nat)
    requires q <= e <= |s|
    requires forall j | q <= j < e :: s[j] != ' '
    ensures RemoveSpaces(s[q..]) == s[q..e] + RemoveSpaces(s[e..])
    decreases e - q
  {
    if q < e {
      assert s[q..][1..] == s[q + 1..];
      WordKept(s, q + 1, e);
      assert s[q..e] == [s[q]] + s[q + 1..e];
    } else {
      assert s[q..e] == [];
    }
  }

  lemma Pieces(s: string, p: nat, q: nat, e: nat, n: nat)
    requires p <= q <= e <= n <= |s|
    requires forall j | p <= j < q :: s[j] == ' '
    requires forall j | q <= j < e :: s[j] != ' '
    requires forall j | e <= j < n :: s[j] == ' '
    ensures RemoveSpaces(s[p..]) == s[q..e] + RemoveSpaces(s[n..])
  {
    SkipDropsSpaces(s, p, q);
    WordKept(s, q, e);
    SkipDropsSpaces(s, e, n);
  }

  lemma TokenPieces(s: string, p: nat)
    requires p <= |s| && NextToken(s, p).Some?
    ensures RemoveSpaces(s[p..]) == NextToken(s, p).value.text + RemoveSpaces(s[NextToken(s, p).value.next..])
  {
    var q := SkipSpaces(s, p);
    var e := TokenEnd(s, q);
    Pieces(s, p, q, e, NextToken(s, p).value.next);
  }

  lemma {:induction false} TokensFromConcat(s: string, p: nat)
    requires p <= |s|
    ensures Concat(TokensFrom(s, p)) == RemoveSpaces(s[p..])
    decreases |s| - p
  {
    var r := NextToken(s, p);
    if r.None? {
      SkipDropsSpaces(s, p, |s|);
      assert s[|s|..] == [];
    } else {
      TokenPieces(s, p);
      TokensFromConcat(s, r.value.next);
      assert TokensFrom(s, p) == [r.value.text] + TokensFrom(s, r.value.next);
    }
  }

  lemma {:induction false} TokensFromShape(s: string, p: nat)
    requires p <= |s|
    ensures forall i | 0 <= i < |TokensFrom(s, p)| :: |TokensFrom(s, p)[i]| > 0 && ' ' !in TokensFrom(s, p)[i]
    decreases |s| - p
  {
    match NextToken(s, p)
    case None =>
    case Some(t) => TokensFromShape(s, t.next);
  }

  /**
   * The tokens are the non-empty space-free pieces of s: each is non-empty,
   * none holds a space, and together they are s with its spaces removed.
   */
  lemma TokensPartition(s: string)
    ensures forall i | 0 <= i < |Tokens(s)| :: |Tokens(s)[i]| > 0 && ' ' !in Tokens(s)[i]
    ensures Concat(Tokens(s)) == RemoveSpaces(s)
  {
    TokensFromShape(s, 0);
    TokensFromConcat(s, 0);
    assert s[0..] == s;
  }

  /**
   * A reference splitter that reads s one character at a time from p with
   * the word cur begun so far: a space ends a non-empty word, any other
   * character extends it.
   */
  function Split(s: string, p: nat, cur: string): seq<string>
    requires p <= |s|
    decreases |s| - p
  {
    if p == |s| then (if cur == [] then [] else [cur])
    else if s[p] == ' ' then (if cur == [] then [] else [cur]) + Split(s, p + 1, [])
    else Split(s, p + 1, cur + [s[p]])
  }

  /** The maximal space-free runs of s, in order. */
  function Words(s: string): seq<string>
  {
    Split(s, 0, [])
  }

  lemma {:induction false} SplitSkips(s: string, p: nat, q: nat)
    requires p <= q <= |s|
    requires forall j | p <= j < q :: s[j] == ' '
    ensures Split(s, p, []) == Split(s, q, [])
    decreases q - p
  {
    if p < q {
      SplitSkips(s, p + 1, q);
    }
  }

  lemma {:induction false} SplitRun(s: string, i: nat, e: nat, cur: string)
    requires i <= e <= |s|
    requires forall j | i <= j < e :: s[j] != ' '
    ensures Split(s, i, cur) == Split(s, e, cur + s[i..e])
    decreases e - i
  {
    if i < e {
      SplitRun(s, i + 1, e, cur + [s[i]]);
      assert s[i..e] == [s[i]] + s[i + 1..e];
      assert cur + [s[i]] + s[i + 1..e] == cur + s[i..e];
    } else {
      assert cur + s[i..e] == cur;
    }
  }

  lemma {:induction false} TokensFromSplit(s: string, p: nat)
    requires p <= |s|
    ensures TokensFrom(s, p) == Split(s, p, [])
    decreases |s| - p
  {
    var q := SkipSpaces(s, p);
    SplitSkips(s, p, q);
    if q < |s| {
      var e := TokenEnd(s, q);
      var w := s[q..e];
      assert w[0] == s[q];
      SplitRun(s, q, e, []);
      assert [] + w == w;
      SplitWordEnd(s, e, w);
      var next := if e < |s| then e + 1 else e;
      assert NextToken(s, p) == Some(Token(w, next));
      assert TokensFrom(s, p) == [w] + TokensFrom(s, next);
      TokensFromSplit(s, next);
    }
  }

  lemma SplitWordEnd(s: string, e: nat, w: string)
    requires e <= |s| && (e == |s| || s[e] == ' ') && w != []
    ensures Split(s, e, w) == [w] + Split(s, if e < |s| then e + 1 else e, [])
  {
  }

  /**
   * strtok_r's split is the plain one: the tokens are exactly the maximal
   * runs of non-space characters of s, in order, so every cut falls on a
   * space and no run is broken.
   */
  lemma TokensAreWords(s: string)
    ensures Tokens(s) == Words(s)
  {
    TokensFromSplit(s, 0);
  }

  /** strncpy(dst, src, width) for a C string src: at most width characters of src, NUL-padded to width. */
  function Row(src: string, width: nat): (r: string)
    ensures |r| == width
    ensures forall c | 0 <= c < width :: r[c] == if c < |src| then src[c] else NUL
  {
    if |src| >= width then src[..width] else src + Zeros(width - |src|)
  }
}
