/**
 * What the two tokenising decoders compute from the text they read,
 * stated without their loops: the integer-array decoder of
 * read_file_u32arr_template and the governor-name decoder of
 * cpufreq_bindings_get_scaling_available_governors.
 */
module Codec {
  import opened CTypes
  import opened Text

  /** Room for one uint32 in decimal plus its NUL, as the C code sizes it. */
  const U32_MAX_LEN: nat := 12
  /** Scratch bytes allowed per governor name. */
  const GOVERNOR_NAME_MAX_LEN: nat := 128

  function Min(a: nat, b: nat): nat { if a <= b then a else b }

  /** Scratch buffer size of the integer-array reader: len * (U32_MAX_LEN + 1) + 1. */
  function ArrBufLen(len: nat): nat { len * (U32_MAX_LEN + 1) + 1 }

  /**
   * Outcome of decoding: the count returned, the values stored into
   * arr[0..|written|) in that order, and the errno left behind (None when
   * the decoder does not touch errno).
   */
  datatype ArrDecode = ArrDecode(count: nat, written: seq<u32>, errno: Option<int>)

  /** The uint32 stored for each token: strtoul's result cut to 32 bits. */
  function Stored(toks: seq<string>, parse: Strtoul): (r: seq<u32>)
    ensures |r| == |toks|
    ensures forall i | 0 <= i < |toks| :: r[i] == ToU32(parse(toks[i]).value)
  {
    seq(|toks|, i requires 0 <= i < |toks| => ToU32(parse(toks[i]).value))
  }

  /** The first of the first n tokens on which strtoul sets errno, or n when there is none. */
  function FirstError(toks: seq<string>, n: nat, parse: Strtoul): (j: nat)
    requires n <= |toks|
    ensures j <= n
    ensures j < n ==> parse(toks[j]).err != 0
    ensures forall i | 0 <= i < j :: parse(toks[i]).err == 0
  {
    if n == 0 then 0
    else
      var j := FirstError(toks, n - 1, parse);
      if j < n - 1 then j
      else if parse(toks[n - 1]).err != 0 then n - 1
      else n
  }

  /**
   * read_file_u32arr_template after a successful read of `text` into an
   * array of capacity len. With len == 1 the whole text goes to strtoul and
   * its value is stored whatever errno says; otherwise tokens are parsed in
   * order until one sets errno, the array is full, or they run out.
   */
  function DecodeU32Arr(text: string, len: nat, parse: Strtoul): ArrDecode
  {
    if len == 1 then
      var p := parse(text);
      ArrDecode(if p.err == 0 then 1 else 0, [ToU32(p.value)], Some(p.err))
    else
      var toks := Tokens(text);
      var n := Min(|toks|, len);
      var j := FirstError(toks, n, parse);
      if j < n then ArrDecode(0, Stored(toks[..j + 1], parse), Some(parse(toks[j]).err))
      else if |toks| > len then ArrDecode(0, Stored(toks[..len], parse), Some(ERANGE))
      else ArrDecode(|toks|, Stored(toks, parse), if toks == [] then None else Some(0))
  }

  /**
   * Success with len != 1: a nonzero count happens exactly when there are
   * between 1 and len tokens and none makes strtoul set errno; then the
   * count is the number of tokens, element j is token j's value, and errno
   * is left at 0.
   */
  lemma ArrSuccess(text: string, len: nat, parse: Strtoul)
    requires len != 1
    ensures var d := DecodeU32Arr(text, len, parse); var toks := Tokens(text);
      (d.count > 0 <==> 0 < |toks| <= len && forall j | 0 <= j < |toks| :: parse(toks[j]).err == 0)
      && (d.count > 0 ==>
            d.count == |toks| && d.errno == Some(0) && |d.written| == |toks|
            && forall j | 0 <= j < |toks| :: d.written[j] == ToU32(parse(toks[j]).value))
  {
    var toks := Tokens(text);
    var n := Min(|toks|, len);
    var j := FirstError(toks, n, parse);
    if 0 < |toks| <= len && forall i | 0 <= i < |toks| :: parse(toks[i]).err == 0 {
      assert j == n;
    }
  }

  /**
   * Overflow: more tokens than slots, the first len all parsed cleanly:
   * count 0 with ERANGE, and the len values already stored stay stored.
   */
  lemma ArrOverflow(text: string, len: nat, parse: Strtoul)
    requires len != 1 && |Tokens(text)| > len
    requires forall j | 0 <= j < len :: parse(Tokens(text)[j]).err == 0
    ensures var d := DecodeU32Arr(text, len, parse);
      d.count == 0 && d.errno == Some(ERANGE) && d.written == Stored(Tokens(text)[..len], parse)
  {
    var toks := Tokens(text);
    assert FirstError(toks, len, parse) == len;
  }

  /**
   * Parse error on token j (the first one): count 0, errno as strtoul left
   * it (the overflow branch is skipped), and tokens 0..j were stored,
   * including the value of the failing one.
   */
  lemma ArrParseError(text: string, len: nat, parse: Strtoul, j: nat)
    requires len != 1 && j < Min(|Tokens(text)|, len)
    requires parse(Tokens(text)[j]).err != 0
    requires forall i | 0 <= i < j :: parse(Tokens(text)[i]).err == 0
    ensures var d := DecodeU32Arr(text, len, parse);
      d.count == 0 && d.errno == Some(parse(Tokens(text)[j]).err)
      && d.written == Stored(Tokens(text)[..j + 1], parse)
  {
  }

  /**
   * Only the walked prefix is written: at most len slots, and with
   * len != 1 slot i receives token i's value; on an empty text or capacity
   * zero nothing is written. A count of zero never undoes what was
   * written.
   */
  lemma ArrWritesPrefix(text: string, len: nat, parse: Strtoul)
    ensures var d := DecodeU32Arr(text, len, parse);
      |d.written| <= len && d.count <= |d.written|
      && (len != 1 ==>
            |d.written| <= |Tokens(text)|
            && forall i | 0 <= i < |d.written| :: d.written[i] == ToU32(parse(Tokens(text)[i]).value))
  {
  }

  /**
   * The len == 1 fast path: strtoul reads the whole text, its value is
   * stored even when it sets errno, and the count is 1 exactly when it
   * does not.
   */
  lemma ArrSingleSlot(text: string, parse: Strtoul)
    ensures var d := DecodeU32Arr(text, 1, parse);
      d.written == [ToU32(parse(text).value)] && (d.count == 1 <==> parse(text).err == 0)
      && d.count <= 1 && d.errno == Some(parse(text).err)
  {
  }

  /** The array after strtoul's value for toks[i] is stored into slot i, given slots 0..i stored. */
  lemma StoreStep(a0: seq<u32>, toks: seq<string>, i: nat, parse: Strtoul, cur: seq<u32>, next: seq<u32>)
    requires i < |toks| && i < |a0| && cur == Overlay(a0, Stored(toks[..i], parse))
    requires next == cur[i := ToU32(parse(toks[i]).value)]
    ensures i + 1 <= |a0| && next == Overlay(a0, Stored(toks[..i + 1], parse))
  {
    var want := Overlay(a0, Stored(toks[..i + 1], parse));
    assert |next| == |want|;
    forall j | 0 <= j < |next|
      ensures next[j] == want[j]
    {
      if j < i {
        assert toks[..i][j] == toks[..i + 1][j];
      }
    }
  }

  /**
   * How the token walk of the decoder ends for len != 1: either it stops at
   * token k because strtoul set errno there, or it walks all k = min(tokens,
   * len) tokens cleanly; the stored prefix, the count and errno follow.
   */
  lemma ArrWalkOutcome(text: string, len: nat, parse: Strtoul, k: nat, failed: bool)
    requires len != 1
    requires k <= Min(|Tokens(text)|, len)
    requires forall j | 0 <= j < k :: parse(Tokens(text)[j]).err == 0
    requires failed ==> k < Min(|Tokens(text)|, len) && parse(Tokens(text)[k]).err != 0
    requires !failed ==> k == Min(|Tokens(text)|, len)
    ensures var d := DecodeU32Arr(text, len, parse); var toks := Tokens(text);
      && d.written == Stored(toks[..if failed then k + 1 else k], parse)
      && d.count == (if failed || |toks| > len then 0 else |toks|)
      && d.errno == (if failed then Some(parse(toks[k]).err)
                     else if |toks| > len then Some(ERANGE)
                     else if toks == [] then None else Some(0))
  {
    var toks := Tokens(text);
    if failed {
      ArrParseError(text, len, parse, k);
    } else if |toks| > len {
      ArrOverflow(text, len, parse);
    } else {
      assert FirstError(toks, |toks|, parse) == |toks|;
      assert toks[..k] == toks;
    }
  }

  /** What the governor decoder produces: the count, the tokens copied into rows 0.., and errno. */
  datatype GovDecode = GovDecode(count: nat, rows: seq<string>, errno: Option<int>)

  /**
   * The governor loop on the stripped line: tokens are copied into rows
   * until the rows run out; a token left over gives count 0 and ERANGE,
   * with the rows already copied kept.
   */
  function DecodeGovernors(text: string, len: nat): GovDecode
  {
    var toks := Tokens(text);
    if |toks| > len then GovDecode(0, toks[..len], Some(ERANGE))
    else GovDecode(|toks|, toks, None)
  }

  /** Both directions of the governor contract: the count is the token count exactly when they fit. */
  lemma GovernorsOutcome(text: string, len: nat)
    ensures var d := DecodeGovernors(text, len); var toks := Tokens(text);
      |d.rows| == Min(|toks|, len) && d.rows == toks[..|d.rows|]
      && (|toks| <= len <==> d.count == |toks|)
      && (|toks| > len <==> d.errno == Some(ERANGE))
      && (|toks| > len ==> d.count == 0)
  {
  }

  /** b with r written over b[off .. off + |r|). */
  function Splice(b: string, off: nat, r: string): (x: string)
    requires off + |r| <= |b|
    ensures |x| == |b|
    ensures forall y | 0 <= y < |b| :: x[y] == if off <= y < off + |r| then r[y - off] else b[y]
  {
    b[..off] + r + b[off + |r|..]
  }

  lemma MulStep(i: nat, n: nat, width: nat)
    requires i < n
    ensures i * width + width <= n * width
  {
    assert (i + 1) * width <= n * width by {
      if width > 0 { assert i + 1 <= n; }
    }
  }

  /** A flat len * width buffer after strncpy of rows[i] into row i for every i in order. */
  function WriteRows(g: string, rows: seq<string>, width: nat): (w: string)
    requires |rows| * width <= |g|
    ensures |w| == |g|
  {
    if rows == [] then g
    else
      var k := |rows| - 1;
      MulStep(k, |rows|, width);
      assert |rows[..k]| * width <= |g| by { MulStep(k, |rows|, width); }
      Splice(WriteRows(g, rows[..k], width), k * width, Row(rows[k], width))
  }

  /** Row i of a buffer holding len rows of width cells lies inside it. */
  lemma RowFits(i: nat, len: nat, width: nat, total: nat)
    requires i < len && len * width <= total
    ensures 0 <= i * width && i * width + width <= total
  {
    MulStep(i, len, width);
  }

  /** One more row: strncpy into row |rows| of what the earlier rows left. */
  lemma WriteRowsSnoc(g: string, rows: seq<string>, r: string, width: nat)
    requires |rows| * width + width <= |g|
    ensures |rows| * width <= |g| && (|rows| + 1) * width <= |g|
    ensures WriteRows(g, rows + [r], width) == Splice(WriteRows(g, rows, width), |rows| * width, Row(r, width))
  {
    var rs := rows + [r];
    assert rs[..|rs| - 1] == rows;
    assert (|rows| + 1) * width == |rows| * width + width;
  }

  /** The row buffer after strncpy of toks[i] into row i, given rows 0..i already written. */
  lemma RowsStep(g: string, toks: seq<string>, i: nat, width: nat, cur: string, next: string)
    requires i < |toks| && i * width + width <= |g|
    requires i * width <= |g| && cur == WriteRows(g, toks[..i], width)
    requires i * width + width <= |cur| && next == Splice(cur, i * width, Row(toks[i], width))
    ensures (i + 1) * width <= |g| && next == WriteRows(g, toks[..i + 1], width)
  {
    var pre := toks[..i];
    assert |pre| == i;
    assert toks[..i + 1] == pre + [toks[i]];
    WriteRowsSnoc(g, pre, toks[i], width);
  }

  lemma RowSplit(i: nat, c: nat, k: nat, width: nat)
    requires c < width && i != k
    ensures i * width + c < k * width || i * width + c >= k * width + width
  {
    if i < k {
      MulStep(i, k, width);
    } else {
      MulStep(k, i, width);
    }
  }

  lemma {:induction false} RowCell(g: string, rows: seq<string>, width: nat, i: nat, c: nat)
    requires |rows| * width <= |g| && i < |rows| && c < width
    ensures i * width + c < |g| && WriteRows(g, rows, width)[i * width + c] == Row(rows[i], width)[c]
    decreases |rows|
  {
    var k := |rows| - 1;
    MulStep(i, |rows|, width);
    MulStep(k, |rows|, width);
    if i < k {
      RowSplit(i, c, k, width);
      RowCell(g, rows[..k], width, i, c);
      assert rows[..k][i] == rows[i];
    }
  }

  lemma {:induction false} RowTail(g: string, rows: seq<string>, width: nat, x: nat)
    requires |rows| * width <= x < |g|
    ensures WriteRows(g, rows, width)[x] == g[x]
    decreases |rows|
  {
    if rows != [] {
      var k := |rows| - 1;
      MulStep(k, |rows|, width);
      assert |rows[..k]| * width <= x by { MulStep(k, |rows|, width); }
      RowTail(g, rows[..k], width, x);
    }
  }
}
