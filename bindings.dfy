/**
 * The C bindings themselves, as methods on the operating system object:
 * each one is proved to have exactly the effect module Effects gives it,
 * whose properties are proved there.
 */
module Bindings {
  import opened CTypes
  import opened Text
  import opened Kernel
  import opened Files
  import opened Codec
  import opened Effects
  import Decimal

  /** cpufreq_bindings_open_file_template: format the path into 128 bytes, then open it. */
  method OpenFileTemplate(os: Os, template: string, core: u32, flags: nat) returns (fd: int)
    modifies os
    ensures (os.State(), fd) == OpenStep(old(os.State()), TemplatePath(template, core), flags)
  {
    var file := TemplatePath(template, core);
    fd := os.Open(file, flags);
  }

  /** conditional_close: errno is saved before and restored after a possible close. */
  method ConditionalClose(os: Os, cond: bool, fd: int)
    modifies os
    ensures os.State() == CondClose(old(os.State()), cond, fd)
  {
    var errSave := os.errno;
    if cond {
      var _ := os.Close(fd);
    }
    os.errno := errSave;
  }

  /** strcspn(buf, "\n"), scanning no further than the buffer. */
  method StrcspnScan(buf: array<char>) returns (n: nat)
    ensures n <= buf.Length && (n < buf.Length ==> buf[n] == '\n' || buf[n] == NUL)
    ensures forall j | 0 <= j < n :: buf[j] != '\n' && buf[j] != NUL
    ensures n == Strcspn(buf[..])
  {
    n := 0;
    while n < buf.Length && buf[n] != '\n' && buf[n] != NUL
      invariant n <= buf.Length
      invariant forall j | 0 <= j < n :: buf[j] != '\n' && buf[j] != NUL
    {
      n := n + 1;
    }
  }

  /** read_file_str_template. */
  method ReadStr(os: Os, fd: int, core: u32, buf: array<char>, len: nat, template: string) returns (ret: int)
    requires len <= buf.Length
    modifies os, buf
    ensures var e := ReadStrEffect(old(os.State()), fd, TemplatePath(template, core), old(buf[..]), len);
      os.State() == e.0 && ret == e.1 && buf[..] == e.2
  {
    var localFd := fd <= 0;
    var d := fd;
    if localFd {
      d := OpenFileTemplate(os, template, core, O_RDONLY);
      if d <= 0 {
        return -1;
      }
    }
    ret := os.Pread(d, buf, len);
    ConditionalClose(os, localFd, d);
    var n := StrcspnScan(buf);
    if n < buf.Length {
      buf[n] := NUL;
    }
  }

  /** write_file_str_template: pwrite of buf[0..len). */
  method WriteStr(os: Os, fd: int, core: u32, buf: string, len: nat, template: string) returns (ret: int)
    requires len <= |buf|
    modifies os
    ensures (os.State(), ret) == WriteStrEffect(old(os.State()), fd, TemplatePath(template, core), buf[..len])
  {
    var localFd := fd <= 0;
    var d := fd;
    if localFd {
      d := OpenFileTemplate(os, template, core, O_RDWR);
      if d <= 0 {
        return -1;
      }
    }
    ret := os.Pwrite(d, buf[..len]);
    ConditionalClose(os, localFd, d);
  }

  /**
   * write_file_u32_template: snprintf "%u" into 12 bytes and pwrite all 12.
   * The buffer is not initialised in C; stale is what it held before.
   */
  method WriteU32(os: Os, fd: int, core: u32, val: u32, template: string, stale: string) returns (ret: int)
    requires |stale| == U32_MAX_LEN
    modifies os
    ensures (os.State(), ret) == WriteU32Effect(old(os.State()), fd, TemplatePath(template, core), val, stale)
  {
    var localFd := fd <= 0;
    var d := fd;
    if localFd {
      d := OpenFileTemplate(os, template, core, O_RDWR);
      if d <= 0 {
        return -1;
      }
    }
    var buf := new char[U32_MAX_LEN](i => if 0 <= i < |stale| then stale[i] else NUL);
    var digits := Decimal.Digits(val as nat);
    Decimal.U32DigitsAtMostTen(val);
    forall i | 0 <= i < |digits| {
      buf[i] := digits[i];
    }
    buf[|digits|] := NUL;
    assert buf[..] == U32Text(val, stale);
    ret := os.Pwrite(d, buf[..]);
    ConditionalClose(os, localFd, d);
  }

  /**
   * read_file_u32arr_template. The scratch buffer of len * 13 + 1 bytes is
   * read into, then either handed whole to strtoul (len == 1) or split
   * with strtok_r, one strtoul per token.
   */
  method ReadU32Arr(os: Os, fd: int, core: u32, arr: array<u32>, len: nat, template: string, parse: Strtoul)
    returns (count: nat)
    requires len <= arr.Length
    modifies os, arr
    ensures var e := ReadArrEffect(old(os.State()), fd, TemplatePath(template, core), old(arr[..]), len, parse);
      os.State() == e.0 && count == e.1 && arr[..] == e.2
  {
    var localFd := fd <= 0;
    var d := fd;
    if localFd {
      d := OpenFileTemplate(os, template, core, O_RDONLY);
      if d <= 0 {
        return 0;
      }
    }
    count := ReadArrFrom(os, d, localFd, arr, len, parse);
  }

  /** The part of read_file_u32arr_template from the pread on. */
  method ReadArrFrom(os: Os, d: int, localFd: bool, arr: array<u32>, len: nat, parse: Strtoul) returns (count: nat)
    requires len <= arr.Length
    modifies os, arr
    ensures var e := ReadArrOn(old(os.State()), d, localFd, old(arr[..]), len, parse);
      os.State() == e.0 && count == e.1 && arr[..] == e.2
  {
    ghost var s1 := os.State();
    var buflen := ArrBufLen(len);
    var buf := new char[buflen](_ => NUL);
    assert buf[..] == Zeros(buflen);
    var n := os.Pread(d, buf, buflen);
    ghost var data := PreadStep(s1, d, buflen).2;
    count := 0;
    if n > 0 {
      var text := CString(buf[..]);
      CStringOfScratch(data, buflen);
      assert text == CString(data);
      count := ParseText(os, text, arr, len, parse);
    }
    ConditionalClose(os, localFd, d);
  }

  /** What read_file_u32arr_template does with the text once pread returned more than 0 bytes. */
  method ParseText(os: Os, text: string, arr: array<u32>, len: nat, parse: Strtoul) returns (count: nat)
    requires len <= arr.Length
    modifies os, arr
    ensures var dec := DecodeU32Arr(text, len, parse);
      count == dec.count
      && |dec.written| <= arr.Length && arr[..] == Overlay(old(arr[..]), dec.written)
      && os.State() == if dec.errno.Some? then old(os.State()).(errno := dec.errno.value) else old(os.State())
  {
    if len == 1 {
      os.errno := 0;
      var p := parse(text);
      arr[0] := ToU32(p.value);
      os.errno := p.err;
      count := 0;
      if p.err == 0 {
        count := 1;
      }
      assert arr[..] == Overlay(old(arr[..]), [ToU32(p.value)]);
    } else {
      count := ReadTokens(os, text, arr, len, parse);
    }
  }

  /**
   * The strtok_r loop of read_file_u32arr_template on the scratch text:
   * errno is cleared before each strtoul; a token that sets errno stops
   * the walk with count 0; a token left once the array is full gives 0
   * and ERANGE.
   */
  method ReadTokens(os: Os, text: string, arr: array<u32>, len: nat, parse: Strtoul) returns (count: nat)
    requires len <= arr.Length && len != 1
    modifies os, arr
    ensures var dec := DecodeU32Arr(text, len, parse);
      count == dec.count
      && |dec.written| <= arr.Length && arr[..] == Overlay(old(arr[..]), dec.written)
      && os.State() == if dec.errno.Some? then old(os.State()).(errno := dec.errno.value) else old(os.State())
  {
    ghost var a0 := arr[..];
    var i, tok, k, failed := WalkTokens(os, text, arr, len, parse);
    if tok.Some? {
      i := 0;
      os.errno := ERANGE;
    }
    count := i;
    ArrWalkOutcome(text, len, parse, k, failed);
  }

  /** `errno = 0; arr[i] = strtoul(tok, NULL, 0);` and the errno strtoul leaves. */
  method StoreToken(os: Os, arr: array<u32>, i: nat, tok: string, parse: Strtoul) returns (err: int)
    requires i < arr.Length
    modifies os`errno, arr
    ensures err == parse(tok).err && arr[..] == old(arr[..])[i := ToU32(parse(tok).value)]
    ensures os.errno == err
  {
    os.errno := 0;
    var p := parse(tok);
    arr[i] := ToU32(p.value);
    os.errno := p.err;
    err := os.errno;
  }

  /** StoreToken for token i of toks, over an array whose first i slots already hold tokens 0..i. */
  method StoreNext(os: Os, arr: array<u32>, ghost a0: seq<u32>, ghost toks: seq<string>, i: nat, tok: string, parse: Strtoul)
    returns (err: int)
    requires i < |toks| && i < arr.Length && |a0| == arr.Length && tok == toks[i]
    requires arr[..] == Overlay(a0, Stored(toks[..i], parse))
    modifies os`errno, arr
    ensures err == parse(toks[i]).err && os.errno == err
    ensures arr[..] == Overlay(a0, Stored(toks[..i + 1], parse))
  {
    ghost var cur := arr[..];
    err := StoreToken(os, arr, i, tok, parse);
    StoreStep(a0, toks, i, parse, cur, arr[..]);
  }

  /** `tok = strtok_r(NULL, " ", &ptr)` after token i of toks: the call yields token i + 1, or NULL after the last. */
  method StrtokNext(text: string, tok: Token, ghost toks: seq<string>, ghost i: nat) returns (next: Option<Token>)
    requires Cursor(text, Some(tok), toks, i)
    ensures next == NextToken(text, tok.next) && Cursor(text, next, toks, i + 1)
  {
    CursorStep(text, tok, toks, i);
    next := NextToken(text, tok.next);
  }

  /** The for loop itself, up to the check for a token left over. */
  method WalkTokens(os: Os, text: string, arr: array<u32>, len: nat, parse: Strtoul)
    returns (i: nat, tok: Option<Token>, ghost k: nat, ghost failed: bool)
    requires len <= arr.Length && len != 1
    modifies os`errno, arr
    ensures k <= Min(|Tokens(text)|, len)
    ensures FirstError(Tokens(text), k, parse) == k
    ensures failed ==> i == 0 && tok.None? && k < Min(|Tokens(text)|, len)
    ensures failed ==> parse(Tokens(text)[k]).err != 0 && os.errno == parse(Tokens(text)[k]).err
    ensures failed ==> arr[..] == Overlay(old(arr[..]), Stored(Tokens(text)[..k + 1], parse))
    ensures !failed ==> i == k && Cursor(text, tok, Tokens(text), i) && (tok.None? || i == len)
    ensures !failed ==> os.errno == if i == 0 then old(os.errno) else 0
    ensures !failed ==> arr[..] == Overlay(old(arr[..]), Stored(Tokens(text)[..k], parse))
  {
    ghost var toks := Tokens(text);
    ghost var s0 := os.errno;
    ghost var a0 := arr[..];
    failed, k, i := false, 0, 0;
    tok := NextToken(text, 0);
    CursorStart(text);
    assert toks[..0] == [];
    while tok.Some? && i < len
      invariant i <= len && Cursor(text, tok, toks, i) && k == i && !failed
      invariant arr[..] == Overlay(a0, Stored(toks[..i], parse))
      invariant FirstError(toks, i, parse) == i
      invariant os.errno == if i == 0 then s0 else 0
      decreases len - i
    {
      var err := StoreNext(os, arr, a0, toks, i, tok.value.text, parse);
      if err != 0 {
        failed := true;
        i := 0;
        tok := None;
        break;
      }
      tok := StrtokNext(text, tok.value, toks, i);
      i := i + 1;
      k := i;
    }
  }

  /** strncpy(&dst[off], src, width) for a C string src. */
  method Strncpy(dst: array<char>, off: nat, src: string, width: nat)
    requires off + width <= dst.Length
    modifies dst
    ensures dst[..] == Splice(old(dst[..]), off, Row(src, width))
  {
    var c := 0;
    while c < width
      invariant c <= width
      invariant forall y | 0 <= y < dst.Length ::
        dst[y] == if off <= y < off + c then Row(src, width)[y - off] else old(dst[y])
    {
      dst[off + c] := if c < |src| then src[c] else NUL;
      c := c + 1;
    }
  }

  /** read_file_u32_template: a one-slot array holding 0, read with len == 1. */
  method ReadU32(os: Os, fd: int, core: u32, template: string, parse: Strtoul) returns (ret: u32)
    modifies os
    ensures (os.State(), ret) == ReadU32Effect(old(os.State()), fd, TemplatePath(template, core), parse)
  {
    var slot := new u32[1](_ => 0);
    assert slot[..] == [0];
    var _ := ReadU32Arr(os, fd, core, slot, 1, template, parse);
    ret := slot[0];
  }

  /**
   * The strtok_r loop of cpufreq_bindings_get_scaling_available_governors:
   * strncpy of token i into row i while rows remain; a token left over
   * gives 0 and ERANGE.
   */
  method CopyGovernors(os: Os, text: string, governors: array<char>, len: nat, width: nat) returns (count: nat)
    requires len * width <= governors.Length
    modifies os, governors
    ensures var dec := DecodeGovernors(text, len);
      && |dec.rows| * width <= governors.Length
      && count == dec.count
      && governors[..] == WriteRows(old(governors[..]), dec.rows, width)
      && os.State() == if dec.errno.Some? then old(os.State()).(errno := dec.errno.value) else old(os.State())
  {
    var i, tok := WalkGovernors(text, governors, len, width);
    if tok.Some? {
      i := 0;
      os.errno := ERANGE;
    }
    count := i;
    GovernorsOutcome(text, len);
  }

  /** The for loop of the governor getter, up to the check for a token left over. */
  method WalkGovernors(text: string, governors: array<char>, len: nat, width: nat) returns (i: nat, tok: Option<Token>)
    requires len * width <= governors.Length
    modifies governors
    ensures i <= len && Cursor(text, tok, Tokens(text), i) && (tok.None? || i == len)
    ensures i * width <= governors.Length && governors[..] == WriteRows(old(governors[..]), Tokens(text)[..i], width)
  {
    ghost var toks := Tokens(text);
    ghost var g0 := governors[..];
    i := 0;
    tok := NextToken(text, 0);
    CursorStart(text);
    while tok.Some? && i < len
      invariant i <= len && Cursor(text, tok, toks, i)
      invariant |g0| == governors.Length && i * width <= |g0|
      invariant governors[..] == WriteRows(g0, toks[..i], width)
      decreases len - i
    {
      RowFits(i, len, width, governors.Length);
      var off: nat := i * width;
      assert off + width <= governors.Length;
      ghost var cur := governors[..];
      Strncpy(governors, off, tok.value.text, width);
      RowsStep(g0, toks, i, width, cur, governors[..]);
      tok := StrtokNext(text, tok.value, toks, i);
      i := i + 1;
    }
  }

  /** cpufreq_bindings_get_scaling_available_governors: len rows of width bytes in one flat buffer. */
  method GetScalingAvailableGovernors(os: Os, fd: int, core: u32, governors: array<char>, len: nat, width: nat)
    returns (count: nat)
    requires len * width <= governors.Length
    modifies os, governors
    ensures var e := GovernorsEffect(old(os.State()), fd, TemplatePath(Template(ScalingAvailableGovernors), core),
                                     old(governors[..]), len, width);
      os.State() == e.0 && count == e.1 && governors[..] == e.2
  {
    var buf := new char[GovBufLen(len)](_ => NUL);
    assert buf[..] == Zeros(GovBufLen(len));
    var r := ReadStr(os, fd, core, buf, buf.Length, Template(ScalingAvailableGovernors));
    if r <= 0 {
      return 0;
    }
    var text := CString(buf[..]);
    count := CopyGovernors(os, text, governors, len, width);
  }

  /** cpufreq_bindings_file_open: EINVAL and -1 for an unknown identifier; the default mode when flags < 0. */
  method FileOpen(os: Os, core: u32, file: int, flags: int) returns (fd: int)
    modifies os
    ensures (os.State(), fd) == FileOpenEffect(old(os.State()), core, file, flags)
  {
    var template := FileToTemplate(file);
    if template.None? {
      os.errno := EINVAL;
      return -1;
    }
    var mode := if flags < 0 then FileToFlags(file) else flags as nat;
    fd := OpenFileTemplate(os, template.value, core, mode);
  }

  /** cpufreq_bindings_file_close: close(2). */
  method FileClose(os: Os, fd: int) returns (r: int)
    modifies os
    ensures (os.State(), r) == CloseStep(old(os.State()), fd)
  {
    r := os.Close(fd);
  }

  // ---------------------------------------------------------------------
  // The public getters and setters: each forwards to a helper with its
  // attribute's template.

  method GetAffectedCpus(os: Os, fd: int, core: u32, affected: array<u32>, len: nat, parse: Strtoul) returns (count: nat)
    requires len <= affected.Length
    modifies os, affected
    ensures var e := ReadArrEffect(old(os.State()), fd, TemplatePath(Template(AffectedCpus), core), old(affected[..]), len, parse);
      os.State() == e.0 && count == e.1 && affected[..] == e.2
  {
    count := ReadU32Arr(os, fd, core, affected, len, Template(AffectedCpus), parse);
  }

  method GetRelatedCpus(os: Os, fd: int, core: u32, related: array<u32>, len: nat, parse: Strtoul) returns (count: nat)
    requires len <= related.Length
    modifies os, related
    ensures var e := ReadArrEffect(old(os.State()), fd, TemplatePath(Template(RelatedCpus), core), old(related[..]), len, parse);
      os.State() == e.0 && count == e.1 && related[..] == e.2
  {
    count := ReadU32Arr(os, fd, core, related, len, Template(RelatedCpus), parse);
  }

  method GetScalingAvailableFrequencies(os: Os, fd: int, core: u32, freqs: array<u32>, len: nat, parse: Strtoul) returns (count: nat)
    requires len <= freqs.Length
    modifies os, freqs
    ensures var e := ReadArrEffect(old(os.State()), fd, TemplatePath(Template(ScalingAvailableFrequencies), core), old(freqs[..]), len, parse);
      os.State() == e.0 && count == e.1 && freqs[..] == e.2
  {
    count := ReadU32Arr(os, fd, core, freqs, len, Template(ScalingAvailableFrequencies), parse);
  }

  method GetBiosLimit(os: Os, fd: int, core: u32, parse: Strtoul) returns (value: u32)
    modifies os
    ensures (os.State(), value) == ReadU32Effect(old(os.State()), fd, TemplatePath(Template(BiosLimit), core), parse)
  {
    value := ReadU32(os, fd, core, Template(BiosLimit), parse);
  }

  method GetCpuinfoCurFreq(os: Os, fd: int, core: u32, parse: Strtoul) returns (value: u32)
    modifies os
    ensures (os.State(), value) == ReadU32Effect(old(os.State()), fd, TemplatePath(Template(CpuinfoCurFreq), core), parse)
  {
    value := ReadU32(os, fd, core, Template(CpuinfoCurFreq), parse);
  }

  method GetCpuinfoMaxFreq(os: Os, fd: int, core: u32, parse: Strtoul) returns (value: u32)
    modifies os
    ensures (os.State(), value) == ReadU32Effect(old(os.State()), fd, TemplatePath(Template(CpuinfoMaxFreq), core), parse)
  {
    value := ReadU32(os, fd, core, Template(CpuinfoMaxFreq), parse);
  }

  method GetCpuinfoMinFreq(os: Os, fd: int, core: u32, parse: Strtoul) returns (value: u32)
    modifies os
    ensures (os.State(), value) == ReadU32Effect(old(os.State()), fd, TemplatePath(Template(CpuinfoMinFreq), core), parse)
  {
    value := ReadU32(os, fd, core, Template(CpuinfoMinFreq), parse);
  }

  method GetCpuinfoTransitionLatency(os: Os, fd: int, core: u32, parse: Strtoul) returns (value: u32)
    modifies os
    ensures (os.State(), value) == ReadU32Effect(old(os.State()), fd, TemplatePath(Template(CpuinfoTransitionLatency), core), parse)
  {
    value := ReadU32(os, fd, core, Template(CpuinfoTransitionLatency), parse);
  }

  method GetScalingCurFreq(os: Os, fd: int, core: u32, parse: Strtoul) returns (value: u32)
    modifies os
    ensures (os.State(), value) == ReadU32Effect(old(os.State()), fd, TemplatePath(Template(ScalingCurFreq), core), parse)
  {
    value := ReadU32(os, fd, core, Template(ScalingCurFreq), parse);
  }

  method GetScalingMaxFreq(os: Os, fd: int, core: u32, parse: Strtoul) returns (value: u32)
    modifies os
    ensures (os.State(), value) == ReadU32Effect(old(os.State()), fd, TemplatePath(Template(ScalingMaxFreq), core), parse)
  {
    value := ReadU32(os, fd, core, Template(ScalingMaxFreq), parse);
  }

  method GetScalingMinFreq(os: Os, fd: int, core: u32, parse: Strtoul) returns (value: u32)
    modifies os
    ensures (os.State(), value) == ReadU32Effect(old(os.State()), fd, TemplatePath(Template(ScalingMinFreq), core), parse)
  {
    value := ReadU32(os, fd, core, Template(ScalingMinFreq), parse);
  }

  method GetScalingDriver(os: Os, fd: int, core: u32, driver: array<char>, len: nat) returns (ret: int)
    requires len <= driver.Length
    modifies os, driver
    ensures var e := ReadStrEffect(old(os.State()), fd, TemplatePath(Template(ScalingDriver), core), old(driver[..]), len);
      os.State() == e.0 && ret == e.1 && driver[..] == e.2
  {
    ret := ReadStr(os, fd, core, driver, len, Template(ScalingDriver));
  }

  method GetScalingGovernor(os: Os, fd: int, core: u32, governor: array<char>, len: nat) returns (ret: int)
    requires len <= governor.Length
    modifies os, governor
    ensures var e := ReadStrEffect(old(os.State()), fd, TemplatePath(Template(ScalingGovernor), core), old(governor[..]), len);
      os.State() == e.0 && ret == e.1 && governor[..] == e.2
  {
    ret := ReadStr(os, fd, core, governor, len, Template(ScalingGovernor));
  }

  method SetScalingGovernor(os: Os, fd: int, core: u32, governor: string, len: nat) returns (ret: int)
    requires len <= |governor|
    modifies os
    ensures (os.State(), ret) == WriteStrEffect(old(os.State()), fd, TemplatePath(Template(ScalingGovernor), core), governor[..len])
  {
    ret := WriteStr(os, fd, core, governor, len, Template(ScalingGovernor));
  }

  method SetScalingMaxFreq(os: Os, fd: int, core: u32, freq: u32, stale: string) returns (ret: int)
    requires |stale| == U32_MAX_LEN
    modifies os
    ensures (os.State(), ret) == WriteU32Effect(old(os.State()), fd, TemplatePath(Template(ScalingMaxFreq), core), freq, stale)
  {
    ret := WriteU32(os, fd, core, freq, Template(ScalingMaxFreq), stale);
  }

  method SetScalingMinFreq(os: Os, fd: int, core: u32, freq: u32, stale: string) returns (ret: int)
    requires |stale| == U32_MAX_LEN
    modifies os
    ensures (os.State(), ret) == WriteU32Effect(old(os.State()), fd, TemplatePath(Template(ScalingMinFreq), core), freq, stale)
  {
    ret := WriteU32(os, fd, core, freq, Template(ScalingMinFreq), stale);
  }

  method SetScalingSetspeed(os: Os, fd: int, core: u32, freq: u32, stale: string) returns (ret: int)
    requires |stale| == U32_MAX_LEN
    modifies os
    ensures (os.State(), ret) == WriteU32Effect(old(os.State()), fd, TemplatePath(Template(ScalingSetspeed), core), freq, stale)
  {
    ret := WriteU32(os, fd, core, freq, Template(ScalingSetspeed), stale);
  }
}
