/**
 * What each helper of src/cpufreq-bindings.c does to the operating system
 * and to the caller's buffers, as a function of the state before the call:
 * descriptor acquisition (caller-owned when fd > 0, otherwise opened here),
 * one pread or pwrite at offset 0, the conditional close that keeps errno,
 * and the decoding of what was read. The methods of module Bindings are
 * proved to have exactly these effects; the lemmas here state what the
 * header promises about them.
 */
module Effects {
  import opened CTypes
  import opened Text
  import opened Kernel
  import opened Files
  import opened Codec
  import Decimal

  /** `if (fd <= 0) fd = open(path, flags)`: the state and the descriptor used from then on. */
  function Acquire(s: Sys, fd: int, path: string, flags: nat): (Sys, int)
  {
    if fd <= 0 then OpenStep(s, path, flags) else (s, fd)
  }

  /** conditional_close: close only when the descriptor was opened locally, and keep errno. */
  function CondClose(s: Sys, cond: bool, fd: int): (r: Sys)
    ensures r.errno == s.errno
    ensures r.files == s.files && r.nextFd == s.nextFd
    ensures cond ==> r.log == s.log + [CloseCall(fd)] && r.fds == s.fds - {fd}
    ensures !cond ==> r == s
  {
    if cond then CloseStep(s, fd).0.(errno := s.errno) else s
  }

  /** What pread delivers to a helper: None when the open or the read failed. */
  function Delivered(s: Sys, fd: int, path: string, flags: nat, count: nat): Option<string>
  {
    var (s1, d) := Acquire(s, fd, path, flags);
    if fd <= 0 && d <= 0 then None
    else
      var (_, n, data) := PreadStep(s1, d, count);
      if n >= 0 then Some(data) else None
  }

  /** read_file_str_template: (new state, pread's result, new caller buffer). */
  function ReadStrEffect(s: Sys, fd: int, path: string, buf: string, len: nat): (Sys, int, string)
    requires len <= |buf|
  {
    var (s1, d) := Acquire(s, fd, path, O_RDONLY);
    if fd <= 0 && d <= 0 then (s1, -1, buf)
    else
      var (s2, n, data) := PreadStep(s1, d, len);
      (CondClose(s2, fd <= 0, d), n, StripNewline(Overlay(buf, data)))
  }

  /** write_file_str_template: (new state, pwrite's result). */
  function WriteStrEffect(s: Sys, fd: int, path: string, bytes: string): (Sys, int)
  {
    var (s1, d) := Acquire(s, fd, path, O_RDWR);
    if fd <= 0 && d <= 0 then (s1, -1)
    else
      var (s2, n) := PwriteStep(s1, d, bytes);
      (CondClose(s2, fd <= 0, d), n)
  }

  /**
   * The 12 bytes write_file_u32_template hands to pwrite: "%u" of val and
   * its NUL, then whatever the uninitialised stack buffer held (stale).
   */
  function U32Text(val: u32, stale: string): (b: string)
    requires |stale| == U32_MAX_LEN
    ensures |b| == U32_MAX_LEN
  {
    Decimal.U32DigitsAtMostTen(val);
    var d := Decimal.Digits(val as nat);
    d + [NUL] + stale[|d| + 1..]
  }

  /** write_file_u32_template: the 12-byte rendering written as a string is. */
  function WriteU32Effect(s: Sys, fd: int, path: string, val: u32, stale: string): (Sys, int)
    requires |stale| == U32_MAX_LEN
  {
    WriteStrEffect(s, fd, path, U32Text(val, stale))
  }

  /** What read_file_u32arr_template does after pread returned n with data, before the close. */
  function ArrAfterRead(s: Sys, n: int, data: string, arr: seq<u32>, len: nat, parse: Strtoul): (Sys, nat, seq<u32>)
    requires len <= |arr|
  {
    if n > 0 then
      var dec := DecodeU32Arr(CString(data), len, parse);
      ArrWritesPrefix(CString(data), len, parse);
      (if dec.errno.Some? then s.(errno := dec.errno.value) else s, dec.count, Overlay(arr, dec.written))
    else
      (s, 0, arr)
  }

  /** read_file_u32arr_template on an open descriptor d, closing it when local. */
  function ReadArrOn(s: Sys, d: int, local: bool, arr: seq<u32>, len: nat, parse: Strtoul): (Sys, nat, seq<u32>)
    requires len <= |arr|
  {
    var r := PreadStep(s, d, ArrBufLen(len));
    var a := ArrAfterRead(r.0, r.1, r.2, arr, len, parse);
    (CondClose(a.0, local, d), a.1, a.2)
  }

  /** read_file_u32arr_template: (new state, count returned, new array contents). */
  function ReadArrEffect(s: Sys, fd: int, path: string, arr: seq<u32>, len: nat, parse: Strtoul): (Sys, nat, seq<u32>)
    requires len <= |arr|
  {
    var (s1, d) := Acquire(s, fd, path, O_RDONLY);
    if fd <= 0 && d <= 0 then (s1, 0, arr)
    else ReadArrOn(s1, d, fd <= 0, arr, len, parse)
  }

  /** read_file_u32_template: a one-slot array initialised to 0, whose slot is returned. */
  function ReadU32Effect(s: Sys, fd: int, path: string, parse: Strtoul): (Sys, u32)
  {
    var (s', _, a) := ReadArrEffect(s, fd, path, [0], 1, parse);
    (s', a[0])
  }

  lemma MulMono(a: nat, b: nat, w: nat)
    requires a <= b
    ensures a * w <= b * w
  {
  }

  /** Scratch size of the governor reader: len * GOVERNOR_NAME_MAX_LEN. */
  function GovBufLen(len: nat): nat { len * GOVERNOR_NAME_MAX_LEN }

  /** cpufreq_bindings_get_scaling_available_governors: (new state, count, new row buffer). */
  function GovernorsEffect(s: Sys, fd: int, path: string, g: string, len: nat, width: nat): (Sys, nat, string)
    requires len * width <= |g|
  {
    var scratch := Zeros(GovBufLen(len));
    var (s1, r, buf) := ReadStrEffect(s, fd, path, scratch, |scratch|);
    if r <= 0 then (s1, 0, g)
    else
      var dec := DecodeGovernors(CString(buf), len);
      MulMono(|dec.rows|, len, width);
      (if dec.errno.Some? then s1.(errno := dec.errno.value) else s1, dec.count, WriteRows(g, dec.rows, width))
  }

  /** cpufreq_bindings_file_open. */
  function FileOpenEffect(s: Sys, core: u32, file: int, flags: int): (Sys, int)
  {
    match FileToTemplate(file)
    case None => (s.(errno := EINVAL), -1)
    case Some(t) => OpenStep(s, TemplatePath(t, core), if flags < 0 then FileToFlags(file) else flags as nat)
  }

  // ---------------------------------------------------------------------
  // Descriptor ownership

  function Opens(t: seq<Syscall>): nat
  {
    if t == [] then 0 else (if t[0].OpenCall? then 1 else 0) + Opens(t[1..])
  }

  function Closes(t: seq<Syscall>): nat
  {
    if t == [] then 0 else (if t[0].CloseCall? then 1 else 0) + Closes(t[1..])
  }

  function Ios(t: seq<Syscall>): nat
  {
    if t == [] then 0 else (if t[0].IoCall? then 1 else 0) + Ios(t[1..])
  }

  /**
   * The ownership rule on the calls one helper issues, where openRes is
   * what open(2) would return: a caller descriptor (fd > 0) gets no open,
   * no close and its one I/O; otherwise exactly one open; if that open
   * gives a descriptor <= 0 nothing else happens; otherwise one I/O on it
   * and, last, one close of that descriptor.
   */
  predicate Owned(fd: int, openRes: int, t: seq<Syscall>)
  {
    && (fd > 0 ==> Opens(t) == 0 && Closes(t) == 0 && Ios(t) == 1 && t[0].IoCall? && t[0].fd == fd)
    && (fd <= 0 ==> Opens(t) == 1 && t != [] && t[0].OpenCall?)
    && (fd <= 0 && openRes <= 0 ==> Closes(t) == 0 && Ios(t) == 0)
    && (fd <= 0 && openRes > 0 ==>
          Closes(t) == 1 && Ios(t) == 1 && t[|t| - 1] == CloseCall(openRes)
          && forall i | 0 <= i < |t| :: t[i].IoCall? ==> t[i].fd == openRes)
  }

  /** The calls a helper issues. */
  function Trace(fd: int, path: string, flags: nat, openRes: int, kind: IoKind): seq<Syscall>
  {
    if fd > 0 then [IoCall(kind, fd)]
    else if openRes <= 0 then [OpenCall(path, flags, openRes)]
    else [OpenCall(path, flags, openRes), IoCall(kind, openRes), CloseCall(openRes)]
  }

  lemma CountsCons(c: Syscall, t: seq<Syscall>)
    ensures Opens([c] + t) == (if c.OpenCall? then 1 else 0) + Opens(t)
    ensures Closes([c] + t) == (if c.CloseCall? then 1 else 0) + Closes(t)
    ensures Ios([c] + t) == (if c.IoCall? then 1 else 0) + Ios(t)
  {
    assert ([c] + t)[1..] == t;
  }

  lemma TraceOwned(fd: int, path: string, flags: nat, openRes: int, kind: IoKind)
    ensures Owned(fd, openRes, Trace(fd, path, flags, openRes, kind))
  {
    var t := Trace(fd, path, flags, openRes, kind);
    if fd > 0 {
      CountsCons(IoCall(kind, fd), []);
      assert t == [IoCall(kind, fd)] + [];
    } else if openRes <= 0 {
      CountsCons(OpenCall(path, flags, openRes), []);
      assert t == [OpenCall(path, flags, openRes)] + [];
    } else {
      var t2 := [CloseCall(openRes)] + [];
      var t1 := [IoCall(kind, openRes)] + t2;
      CountsCons(CloseCall(openRes), []);
      CountsCons(IoCall(kind, openRes), t2);
      CountsCons(OpenCall(path, flags, openRes), t1);
      assert t == [OpenCall(path, flags, openRes)] + t1;
    }
  }

  /**
   * A helper's net effect on the descriptor table: a caller descriptor
   * leaves it as it was; a local one is gone again when the call returns,
   * except when open gave descriptor 0, which is treated as a failure and
   * stays open.
   */
  predicate TableRestored(s: Sys, r: Sys, fd: int, path: string, flags: nat)
  {
    && (fd > 0 || OpenResult(s, path) != 0 ==> r.fds == s.fds)
    && (fd <= 0 && OpenResult(s, path) == 0 ==> r.fds == s.fds[0 := Handle(path, flags)])
  }

  lemma FreshNotOpen(s: Sys, path: string, flags: nat)
    requires Consistent(s) && path in s.files
    ensures OpenStep(s, path, flags).0.fds - {s.nextFd} == s.fds
  {
    assert s.nextFd !in s.fds;
  }

  /** Every path of read_file_str_template obeys the ownership rule and restores the table. */
  lemma ReadStrOwnership(s: Sys, fd: int, path: string, buf: string, len: nat)
    requires Consistent(s) && len <= |buf|
    ensures var r := ReadStrEffect(s, fd, path, buf, len).0;
      |r.log| >= |s.log| && r.log[..|s.log|] == s.log
      && Owned(fd, OpenResult(s, path), r.log[|s.log|..])
      && TableRestored(s, r, fd, path, O_RDONLY) && Consistent(r)
  {
    var r := ReadStrEffect(s, fd, path, buf, len).0;
    TraceOwned(fd, path, O_RDONLY, OpenResult(s, path), Read);
    assert r.log == s.log + Trace(fd, path, O_RDONLY, OpenResult(s, path), Read);
    assert r.log[|s.log|..] == Trace(fd, path, O_RDONLY, OpenResult(s, path), Read);
    if fd <= 0 && path in s.files { FreshNotOpen(s, path, O_RDONLY); }
  }

  /** Every path of write_file_str_template (and so of write_file_u32_template) obeys the ownership rule. */
  lemma WriteStrOwnership(s: Sys, fd: int, path: string, bytes: string)
    requires Consistent(s)
    ensures var r := WriteStrEffect(s, fd, path, bytes).0;
      |r.log| >= |s.log| && r.log[..|s.log|] == s.log
      && Owned(fd, OpenResult(s, path), r.log[|s.log|..])
      && TableRestored(s, r, fd, path, O_RDWR) && Consistent(r)
  {
    var r := WriteStrEffect(s, fd, path, bytes).0;
    TraceOwned(fd, path, O_RDWR, OpenResult(s, path), Write);
    assert r.log == s.log + Trace(fd, path, O_RDWR, OpenResult(s, path), Write);
    assert r.log[|s.log|..] == Trace(fd, path, O_RDWR, OpenResult(s, path), Write);
    if fd <= 0 && path in s.files { FreshNotOpen(s, path, O_RDWR); }
  }

  /** Every path of read_file_u32arr_template, early returns included, obeys the ownership rule. */
  lemma ReadArrOwnership(s: Sys, fd: int, path: string, arr: seq<u32>, len: nat, parse: Strtoul)
    requires Consistent(s) && len <= |arr|
    ensures var r := ReadArrEffect(s, fd, path, arr, len, parse).0;
      |r.log| >= |s.log| && r.log[..|s.log|] == s.log
      && Owned(fd, OpenResult(s, path), r.log[|s.log|..])
      && TableRestored(s, r, fd, path, O_RDONLY) && Consistent(r)
  {
    var r := ReadArrEffect(s, fd, path, arr, len, parse).0;
    TraceOwned(fd, path, O_RDONLY, OpenResult(s, path), Read);
    assert r.log == s.log + Trace(fd, path, O_RDONLY, OpenResult(s, path), Read);
    assert r.log[|s.log|..] == Trace(fd, path, O_RDONLY, OpenResult(s, path), Read);
    if fd <= 0 && path in s.files { FreshNotOpen(s, path, O_RDONLY); }
  }

  // ---------------------------------------------------------------------
  // Sentinels and errno

  /**
   * conditional_close: a close is issued exactly when cond holds, and errno
   * on exit is errno on entry even if close fails.
   */
  lemma CondCloseKeepsErrno(s: Sys, cond: bool, fd: int)
    ensures CondClose(s, cond, fd).errno == s.errno
    ensures Closes(CondClose(s, cond, fd).log) == Closes(s.log) + (if cond then 1 else 0)
  {
    if cond { ClosesAppend(s.log, [CloseCall(fd)]); }
  }

  lemma {:induction false} ClosesAppend(a: seq<Syscall>, b: seq<Syscall>)
    ensures Closes(a + b) == Closes(a) + Closes(b)
    decreases |a|
  {
    if a == [] {
      assert a + b == b;
    } else {
      assert (a + b)[1..] == a[1..] + b;
      ClosesAppend(a[1..], b);
    }
  }

  /**
   * read_file_str_template returns -1 exactly when the open or the pread
   * failed, and otherwise the number of bytes pread delivered (before the
   * newline is cut). errno: ENOENT for a missing file, EBADF for a failed
   * read, untouched otherwise.
   */
  lemma ReadStrResult(s: Sys, fd: int, path: string, buf: string, len: nat)
    requires len <= |buf|
    ensures var (r, n, _) := ReadStrEffect(s, fd, path, buf, len);
      (n == -1 <==> Delivered(s, fd, path, O_RDONLY, len).None?)
      && (n != -1 ==> n == |Delivered(s, fd, path, O_RDONLY, len).value|)
      && (fd <= 0 && path !in s.files ==> r.errno == ENOENT)
      && (Delivered(s, fd, path, O_RDONLY, len).Some? ==> r.errno == s.errno)
      && (!(fd <= 0 && OpenResult(s, path) <= 0) && Delivered(s, fd, path, O_RDONLY, len).None? ==> r.errno == EBADF)
  {
  }

  /**
   * write_file_str_template returns -1 exactly when the open failed or
   * pwrite refused the descriptor, and otherwise every byte was written:
   * the count is |bytes| and the descriptor's file holds them. errno:
   * ENOENT for a missing file, EBADF for a descriptor not open for
   * writing, untouched on success.
   */
  lemma WriteStrResult(s: Sys, fd: int, path: string, bytes: string)
    ensures var (s1, d) := Acquire(s, fd, path, O_RDWR);
      var (r, n) := WriteStrEffect(s, fd, path, bytes);
      (n == -1 <==> (fd <= 0 && OpenResult(s, path) <= 0) || !WritableFd(s1, d))
      && (n != -1 ==> n == |bytes| && r.files == s.files[s1.fds[d].path := bytes] && r.errno == s.errno)
      && (n == -1 ==> r.files == s.files)
      && (fd <= 0 && OpenResult(s, path) > 0 ==> n == |bytes| && r.files == s.files[path := bytes])
      && (fd <= 0 && path !in s.files ==> r.errno == ENOENT)
      && (fd > 0 && !WritableFd(s, fd) ==> n == -1 && r.errno == EBADF)
  {
  }

  /** The u32 setters write all 12 bytes or return -1, and a locally opened file ends up holding the rendering. */
  lemma WriteU32Result(s: Sys, fd: int, path: string, val: u32, stale: string)
    requires |stale| == U32_MAX_LEN
    ensures var (r, n) := WriteU32Effect(s, fd, path, val, stale);
      (n == -1 || n == U32_MAX_LEN)
      && (fd <= 0 && OpenResult(s, path) > 0 ==> n == U32_MAX_LEN && r.files == s.files[path := U32Text(val, stale)])
      && (fd <= 0 && path !in s.files ==> n == -1 && r.errno == ENOENT)
  {
    WriteStrResult(s, fd, path, U32Text(val, stale));
  }

  lemma {:induction false} StrcspnOverlay(buf: string, data: string)
    requires |data| <= |buf| && Strcspn(data) < |data|
    ensures Strcspn(Overlay(buf, data)) == Strcspn(data)
  {
    var o := Overlay(buf, data);
    var n := Strcspn(data);
    assert o[n] == data[n];
  }

  /**
   * When the bytes read contain a newline (or NUL), the caller's buffer
   * afterwards holds, as a C string, the bytes before the first of them;
   * e.g. "ondemand\n" reads as 9 bytes and leaves "ondemand".
   */
  lemma ReadStrLine(s: Sys, fd: int, path: string, buf: string, len: nat)
    requires len <= |buf|
    requires Delivered(s, fd, path, O_RDONLY, len).Some?
    requires var data := Delivered(s, fd, path, O_RDONLY, len).value; Strcspn(data) < |data|
    ensures var data := Delivered(s, fd, path, O_RDONLY, len).value;
      CString(ReadStrEffect(s, fd, path, buf, len).2) == data[..Strcspn(data)]
  {
    var data := Delivered(s, fd, path, O_RDONLY, len).value;
    var o := Overlay(buf, data);
    StrcspnOverlay(buf, data);
    StripGivesLine(o);
    assert o[..Strcspn(data)] == data[..Strcspn(data)];
  }

  /**
   * The array getters return 0 and leave the array alone when the open or
   * the read fails or the file is empty; ENOENT for a missing file and
   * EBADF for a failed read are what errno then holds.
   */
  lemma ReadArrFailure(s: Sys, fd: int, path: string, arr: seq<u32>, len: nat, parse: Strtoul)
    requires len <= |arr|
    requires var got := Delivered(s, fd, path, O_RDONLY, ArrBufLen(len)); got.None? || got.value == []
    ensures var (r, count, arr') := ReadArrEffect(s, fd, path, arr, len, parse);
      count == 0 && arr' == arr
      && (fd <= 0 && path !in s.files ==> r.errno == ENOENT)
      && (Delivered(s, fd, path, O_RDONLY, ArrBufLen(len)).Some? ==> r.errno == s.errno)
      && (!(fd <= 0 && OpenResult(s, path) <= 0) && Delivered(s, fd, path, O_RDONLY, ArrBufLen(len)).None? ==> r.errno == EBADF)
  {
  }

  /**
   * A successful array read (len != 1) whose k tokens all parse and fit:
   * the count is k, arr[j] is token j's value, every other slot is as it
   * was, and errno is 0 when k > 0.
   */
  lemma ReadArrSuccess(s: Sys, fd: int, path: string, arr: seq<u32>, len: nat, parse: Strtoul)
    requires len <= |arr| && len != 1
    requires var got := Delivered(s, fd, path, O_RDONLY, ArrBufLen(len)); got.Some? && got.value != []
    requires var toks := Tokens(CString(Delivered(s, fd, path, O_RDONLY, ArrBufLen(len)).value));
      |toks| <= len && forall j | 0 <= j < |toks| :: parse(toks[j]).err == 0
    ensures var toks := Tokens(CString(Delivered(s, fd, path, O_RDONLY, ArrBufLen(len)).value));
      var (r, count, arr') := ReadArrEffect(s, fd, path, arr, len, parse);
      count == |toks| && |arr'| == |arr|
      && (forall j | 0 <= j < |toks| :: arr'[j] == ToU32(parse(toks[j]).value))
      && (forall j | |toks| <= j < |arr| :: arr'[j] == arr[j])
      && (count > 0 ==> r.errno == 0) && (count == 0 ==> r.errno == s.errno)
  {
    var text := CString(Delivered(s, fd, path, O_RDONLY, ArrBufLen(len)).value);
    ArrSuccess(text, len, parse);
    var toks := Tokens(text);
    assert FirstError(toks, |toks|, parse) == |toks|;
  }

  /**
   * More tokens than slots, the first len parsing cleanly: count 0, errno
   * ERANGE, the len values already stored kept, the rest of the array untouched.
   */
  lemma ReadArrOverflow(s: Sys, fd: int, path: string, arr: seq<u32>, len: nat, parse: Strtoul)
    requires len <= |arr| && len != 1
    requires var got := Delivered(s, fd, path, O_RDONLY, ArrBufLen(len)); got.Some? && got.value != []
    requires var toks := Tokens(CString(Delivered(s, fd, path, O_RDONLY, ArrBufLen(len)).value));
      |toks| > len && forall j | 0 <= j < len :: parse(toks[j]).err == 0
    ensures var toks := Tokens(CString(Delivered(s, fd, path, O_RDONLY, ArrBufLen(len)).value));
      var (r, count, arr') := ReadArrEffect(s, fd, path, arr, len, parse);
      count == 0 && r.errno == ERANGE && |arr'| == |arr|
      && (forall j | 0 <= j < len :: arr'[j] == ToU32(parse(toks[j]).value))
      && (forall j | len <= j < |arr| :: arr'[j] == arr[j])
  {
    var text := CString(Delivered(s, fd, path, O_RDONLY, ArrBufLen(len)).value);
    ArrOverflow(text, len, parse);
  }

  /**
   * A token on which strtoul sets errno (the first such, within capacity):
   * count 0, errno as strtoul left it rather than ERANGE, slots 0..j
   * written, the rest untouched.
   */
  lemma ReadArrParseError(s: Sys, fd: int, path: string, arr: seq<u32>, len: nat, parse: Strtoul, j: nat)
    requires len <= |arr| && len != 1
    requires var got := Delivered(s, fd, path, O_RDONLY, ArrBufLen(len)); got.Some? && got.value != []
    requires var toks := Tokens(CString(Delivered(s, fd, path, O_RDONLY, ArrBufLen(len)).value));
      j < Min(|toks|, len) && parse(toks[j]).err != 0 && forall i | 0 <= i < j :: parse(toks[i]).err == 0
    ensures var toks := Tokens(CString(Delivered(s, fd, path, O_RDONLY, ArrBufLen(len)).value));
      var (r, count, arr') := ReadArrEffect(s, fd, path, arr, len, parse);
      count == 0 && r.errno == parse(toks[j]).err && |arr'| == |arr|
      && (forall i | 0 <= i <= j :: arr'[i] == ToU32(parse(toks[i]).value))
      && (forall i | j < i < |arr| :: arr'[i] == arr[i])
  {
    var text := CString(Delivered(s, fd, path, O_RDONLY, ArrBufLen(len)).value);
    ArrParseError(text, len, parse, j);
  }

  /**
   * The scalar getters: the value strtoul gives for the text read, cut to
   * 32 bits, whether or not it set errno; 0 when the open or the read
   * fails or the file is empty.
   */
  lemma ReadU32Value(s: Sys, fd: int, path: string, parse: Strtoul)
    ensures var got := Delivered(s, fd, path, O_RDONLY, ArrBufLen(1));
      ReadU32Effect(s, fd, path, parse).1 == if got.None? || got.value == [] then 0 else ToU32(parse(CString(got.value)).value)
  {
  }

  /** Rows 0..n of g' hold strncpy of toks[0..n) and every cell after them is as in g. */
  predicate RowsHold(g: string, g': string, toks: seq<string>, n: nat, width: nat)
    requires n <= |toks|
  {
    && |g'| == |g|
    && (forall i, c | 0 <= i < n && 0 <= c < width ::
          i * width + c < |g| && g'[i * width + c] == Row(toks[i], width)[c])
    && (forall x | n * width <= x < |g| :: g'[x] == g[x])
  }

  lemma RowsOfPrefixCells(g: string, rows: seq<string>, toks: seq<string>, width: nat)
    requires |rows| <= |toks| && rows == toks[..|rows|] && |rows| * width <= |g|
    ensures forall i, c | 0 <= i < |rows| && 0 <= c < width ::
      i * width + c < |g| && WriteRows(g, rows, width)[i * width + c] == Row(toks[i], width)[c]
  {
    forall i, c | 0 <= i < |rows| && 0 <= c < width
      ensures i * width + c < |g| && WriteRows(g, rows, width)[i * width + c] == Row(toks[i], width)[c]
    {
      RowCell(g, rows, width, i, c);
      assert rows[i] == toks[i];
    }
  }

  lemma RowsOfPrefixTail(g: string, rows: seq<string>, width: nat, n: nat)
    requires n == |rows| * width && n <= |g|
    ensures forall x | n <= x < |g| :: WriteRows(g, rows, width)[x] == g[x]
  {
    forall x | n <= x < |g|
      ensures WriteRows(g, rows, width)[x] == g[x]
    {
      RowTail(g, rows, width, x);
    }
  }

  lemma RowsOfPrefix(g: string, rows: seq<string>, toks: seq<string>, width: nat)
    requires |rows| <= |toks| && rows == toks[..|rows|] && |rows| * width <= |g|
    ensures RowsHold(g, WriteRows(g, rows, width), toks, |rows|, width)
  {
    RowsOfPrefixCells(g, rows, toks, width);
    RowsOfPrefixTail(g, rows, width, |rows| * width);
  }

  lemma GovernorRows(g: string, text: string, len: nat, width: nat)
    requires len * width <= |g|
    ensures var dec := DecodeGovernors(text, len);
      |dec.rows| * width <= |g|
      && RowsHold(g, WriteRows(g, dec.rows, width), Tokens(text), Min(|Tokens(text)|, len), width)
  {
    var dec := DecodeGovernors(text, len);
    GovernorsOutcome(text, len);
    MulMono(|dec.rows|, len, width);
    RowsOfPrefix(g, dec.rows, Tokens(text), width);
  }

  /**
   * The governor getter: when the read succeeds with a nonempty result,
   * the count is the number of tokens of the line if they fit in len rows
   * and 0 with ERANGE if not; row i holds strncpy of token i for every row
   * walked; cells past the walked rows are untouched. On a failed or empty
   * read it returns 0 and the buffer is untouched.
   */
  lemma GovernorsResult(s: Sys, fd: int, path: string, g: string, len: nat, width: nat)
    requires len * width <= |g|
    ensures var scratch := Zeros(GovBufLen(len));
      var (s1, r, buf) := ReadStrEffect(s, fd, path, scratch, |scratch|);
      var toks := Tokens(CString(buf));
      var (s', count, g') := GovernorsEffect(s, fd, path, g, len, width);
      |g'| == |g|
      && (r <= 0 ==> count == 0 && g' == g && s' == s1)
      && (r > 0 ==>
            (count == if |toks| <= len then |toks| else 0)
            && (|toks| > len ==> s'.errno == ERANGE)
            && (|toks| <= len ==> s'.errno == s.errno)
            && RowsHold(g, g', toks, Min(|toks|, len), width))
  {
    var scratch := Zeros(GovBufLen(len));
    var (s1, r, buf) := ReadStrEffect(s, fd, path, scratch, |scratch|);
    if r > 0 {
      GovernorsOutcome(CString(buf), len);
      GovernorRows(g, CString(buf), len, width);
    }
  }

  /** Every path of the governor getter obeys the ownership rule (it reads through read_file_str_template). */
  lemma GovernorsOwnership(s: Sys, fd: int, path: string, g: string, len: nat, width: nat)
    requires Consistent(s) && len * width <= |g|
    ensures var r := GovernorsEffect(s, fd, path, g, len, width).0;
      |r.log| >= |s.log| && r.log[..|s.log|] == s.log
      && Owned(fd, OpenResult(s, path), r.log[|s.log|..])
      && TableRestored(s, r, fd, path, O_RDONLY) && Consistent(r)
  {
    var scratch := Zeros(GovBufLen(len));
    ReadStrOwnership(s, fd, path, scratch, |scratch|);
  }

  /**
   * cpufreq_bindings_file_open: an unknown identifier gives -1 with EINVAL
   * and no open; otherwise one open of the identifier's path, with the
   * default mode exactly when flags < 0.
   */
  lemma FileOpenResult(s: Sys, core: u32, file: int, flags: int)
    ensures var (r, fd) := FileOpenEffect(s, core, file, flags);
      (!(0 <= file < 15) ==> fd == -1 && r.errno == EINVAL && r.log == s.log && r.fds == s.fds)
      && (0 <= file < 15 ==>
            var f := FromOrdinal(file).value;
            var mode := if flags < 0 then FileToFlags(file) else flags as nat;
            PathFits(f, core);
            var path := SysfsPath(f, core);
            fd == OpenResult(s, path) && r.log == s.log + [OpenCall(path, mode, fd)]
            && (path !in s.files ==> fd == -1 && r.errno == ENOENT && r.fds == s.fds)
            && (path in s.files ==> r.errno == s.errno && r.fds == s.fds[fd := Handle(path, mode)]))
  {
    if 0 <= file < 15 {
      PathFits(FromOrdinal(file).value, core);
    }
  }

  // ---------------------------------------------------------------------
  // u32 encoding and the set/get round trip

  /**
   * The 12-byte buffer holds the decimal digits of val (at most 10), then
   * NUL; its C string is those digits, and strtoul reads val back from it.
   */
  lemma U32TextShape(val: u32, stale: string)
    requires |stale| == U32_MAX_LEN
    ensures var b := U32Text(val, stale); var d := Decimal.Digits(val as nat);
      |b| == 12 && |d| <= 10 && b[..|d|] == d && b[|d|] == NUL
      && CString(b) == d
      && Decimal.DecimalStrtoul(CString(b)) == Parsed(val as int as u64, 0)
  {
    var b := U32Text(val, stale);
    var d := Decimal.Digits(val as nat);
    Decimal.U32DigitsAtMostTen(val);
    CStringOfTerminated(d, [NUL] + stale[|d| + 1..]);
    Decimal.DecimalReadsBack(val, []);
    assert d + [] == d;
  }

  /**
   * Setting a frequency and reading it back, both with locally opened
   * descriptors, gives the value written, provided strtoul reads decimal
   * text as DecimalStrtoul does, whatever the write buffer held after the NUL.
   */
  lemma SetThenGet(s: Sys, path: string, val: u32, stale: string, parse: Strtoul)
    requires Consistent(s) && path in s.files && s.nextFd > 0 && |stale| == U32_MAX_LEN
    requires parse(Decimal.Digits(val as nat)) == Decimal.DecimalStrtoul(Decimal.Digits(val as nat))
    ensures var (s1, w) := WriteU32Effect(s, 0, path, val, stale);
      w == 12 && ReadU32Effect(s1, 0, path, parse).1 == val
  {
    var (s1, w) := WriteU32Effect(s, 0, path, val, stale);
    var b := U32Text(val, stale);
    U32TextShape(val, stale);
    FreshNotOpen(s, path, O_RDWR);
    assert s1.files == s.files[path := b];
    assert s1.nextFd == s.nextFd + 1;
    var got := Delivered(s1, 0, path, O_RDONLY, ArrBufLen(1));
    assert got == Some(b);
    ReadU32Value(s1, 0, path, parse);
    Decimal.DecimalReadsBack(val, []);
    assert Decimal.Digits(val as nat) + [] == Decimal.Digits(val as nat);
  }
}
