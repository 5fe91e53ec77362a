/**
 * The operating system the bindings talk to, reduced to what they use:
 * a store of pseudo-files (path to contents), a descriptor table, errno,
 * and a ghost log of the open/pread/pwrite/close calls issued.
 *
 * Each system call is first a function on a snapshot (Sys); class Os holds
 * the same state in fields and its methods perform those steps in place.
 */
module Kernel {
  import opened CTypes
  import opened Text

  datatype Handle = Handle(path: string, flags: nat)

  datatype IoKind = Read | Write

  datatype Syscall =
    | OpenCall(path: string, flags: nat, result: int)
    | IoCall(kind: IoKind, fd: int)
    | CloseCall(fd: int)

  datatype Sys = Sys(
    files: map<string, string>,
    fds: map<int, Handle>,
    nextFd: int,
    errno: int,
    log: seq<Syscall>)

  /** Descriptors are handed out upward from nextFd; every open one is below it. */
  predicate Consistent(s: Sys)
  {
    s.nextFd >= 0 && forall d | d in s.fds :: 0 <= d < s.nextFd
  }

  /** What open(2) returns for path: the next free descriptor, or -1 when there is no such file. */
  function OpenResult(s: Sys, path: string): int
  {
    if path in s.files then s.nextFd else -1
  }

  /** open(path, flags): a new descriptor for an existing file, otherwise -1 with ENOENT. */
  function OpenStep(s: Sys, path: string, flags: nat): (r: (Sys, int))
    ensures Consistent(s) ==> Consistent(r.0)
    ensures r.1 == OpenResult(s, path)
    ensures r.0.files == s.files && r.0.log == s.log + [OpenCall(path, flags, r.1)]
    ensures path !in s.files ==> r.0.errno == ENOENT && r.0.fds == s.fds && r.0.nextFd == s.nextFd
    ensures path in s.files ==> r.0.errno == s.errno && r.0.fds == s.fds[r.1 := Handle(path, flags)] && r.0.nextFd == r.1 + 1
  {
    if path in s.files then
      var fd := s.nextFd;
      (s.(fds := s.fds[fd := Handle(path, flags)], nextFd := fd + 1, log := s.log + [OpenCall(path, flags, fd)]), fd)
    else
      (s.(errno := ENOENT, log := s.log + [OpenCall(path, flags, -1)]), -1)
  }

  /** fd is open for reading on an existing file. */
  predicate ReadableFd(s: Sys, fd: int)
  {
    fd in s.fds && Readable(s.fds[fd].flags) && s.fds[fd].path in s.files
  }

  /** fd is open for writing on an existing file. */
  predicate WritableFd(s: Sys, fd: int)
  {
    fd in s.fds && Writable(s.fds[fd].flags) && s.fds[fd].path in s.files
  }

  /** pread(fd, buf, count, 0): the first count bytes of the file, or -1 with EBADF. */
  function PreadStep(s: Sys, fd: int, count: nat): (r: (Sys, int, string))
    ensures Consistent(s) ==> Consistent(r.0)
    ensures |r.2| <= count && (r.1 >= 0 ==> r.1 == |r.2|) && (r.1 < 0 ==> r.1 == -1 && r.2 == [])
    ensures r.0.files == s.files && r.0.fds == s.fds && r.0.nextFd == s.nextFd
    ensures r.0.log == s.log + [IoCall(Read, fd)]
    ensures r.1 >= 0 <==> ReadableFd(s, fd)
    ensures r.1 >= 0 ==> r.0.errno == s.errno && r.2 <= s.files[s.fds[fd].path]
    ensures r.1 >= 0 ==> |r.2| == if |s.files[s.fds[fd].path]| <= count then |s.files[s.fds[fd].path]| else count
    ensures r.1 < 0 ==> r.0.errno == EBADF
  {
    var s' := s.(log := s.log + [IoCall(Read, fd)]);
    if ReadableFd(s, fd) then
      var content := s.files[s.fds[fd].path];
      var data := if |content| <= count then content else content[..count];
      (s', |data|, data)
    else
      (s'.(errno := EBADF), -1, [])
  }

  /**
   * pwrite(fd, bytes, |bytes|, 0): the attribute now holds the bytes and
   * their count is returned, or -1 with EBADF.
   */
  function PwriteStep(s: Sys, fd: int, bytes: string): (r: (Sys, int))
    ensures Consistent(s) ==> Consistent(r.0)
    ensures r.1 == -1 || r.1 == |bytes|
    ensures r.0.fds == s.fds && r.0.nextFd == s.nextFd
    ensures r.0.log == s.log + [IoCall(Write, fd)]
    ensures r.1 != -1 <==> WritableFd(s, fd)
    ensures r.1 != -1 ==> r.0.errno == s.errno && r.0.files == s.files[s.fds[fd].path := bytes]
    ensures r.1 == -1 ==> r.0.errno == EBADF && r.0.files == s.files
  {
    var s' := s.(log := s.log + [IoCall(Write, fd)]);
    if WritableFd(s, fd) then
      (s'.(files := s.files[s.fds[fd].path := bytes]), |bytes|)
    else
      (s'.(errno := EBADF), -1)
  }

  /** close(fd): forgets the descriptor, or -1 with EBADF when it is not open. */
  function CloseStep(s: Sys, fd: int): (r: (Sys, int))
    ensures Consistent(s) ==> Consistent(r.0)
    ensures r.0.files == s.files && r.0.nextFd == s.nextFd && r.0.fds == s.fds - {fd}
    ensures r.0.log == s.log + [CloseCall(fd)]
    ensures r.1 == 0 <==> fd in s.fds
    ensures r.1 == 0 ==> r.0.errno == s.errno
    ensures r.1 != 0 ==> r.1 == -1 && r.0.errno == EBADF
  {
    var s' := s.(fds := s.fds - {fd}, log := s.log + [CloseCall(fd)]);
    if fd in s.fds then (s', 0) else (s'.(errno := EBADF), -1)
  }

  /** The operating system, with its state held in fields. */
  class Os {
    var files: map<string, string>
    var fds: map<int, Handle>
    var nextFd: int
    var errno: int
    ghost var log: seq<Syscall>

    ghost function State(): Sys
      reads this
    {
      Sys(files, fds, nextFd, errno, log)
    }

    constructor (files: map<string, string>, fds: map<int, Handle>, nextFd: int)
      ensures State() == Sys(files, fds, nextFd, 0, [])
    {
      this.files := files;
      this.fds := fds;
      this.nextFd := nextFd;
      this.errno := 0;
      this.log := [];
    }

    method Open(path: string, flags: nat) returns (fd: int)
      modifies this
      ensures (State(), fd) == OpenStep(old(State()), path, flags)
    {
      if path in files {
        fd := nextFd;
        fds := fds[fd := Handle(path, flags)];
        nextFd := nextFd + 1;
      } else {
        fd := -1;
        errno := ENOENT;
      }
      log := log + [OpenCall(path, flags, fd)];
    }

    /** pread into buf[0..count): the bytes read overwrite the front of buf. */
    method Pread(fd: int, buf: array<char>, count: nat) returns (n: int)
      requires count <= buf.Length
      modifies this, buf
      ensures State() == PreadStep(old(State()), fd, count).0
      ensures n == PreadStep(old(State()), fd, count).1
      ensures buf[..] == Overlay(old(buf[..]), PreadStep(old(State()), fd, count).2)
    {
      var data: string := [];
      if fd in fds && Readable(fds[fd].flags) && fds[fd].path in files {
        var content := files[fds[fd].path];
        data := if |content| <= count then content else content[..count];
        n := |data|;
      } else {
        n := -1;
        errno := EBADF;
      }
      log := log + [IoCall(Read, fd)];
      forall i | 0 <= i < |data| {
        buf[i] := data[i];
      }
    }

    method Pwrite(fd: int, bytes: string) returns (n: int)
      modifies this
      ensures (State(), n) == PwriteStep(old(State()), fd, bytes)
    {
      if fd in fds && Writable(fds[fd].flags) && fds[fd].path in files {
        files := files[fds[fd].path := bytes];
        n := |bytes|;
      } else {
        n := -1;
        errno := EBADF;
      }
      log := log + [IoCall(Write, fd)];
    }

    method Close(fd: int) returns (r: int)
      modifies this
      ensures (State(), r) == CloseStep(old(State()), fd)
    {
      if fd in fds {
        r := 0;
      } else {
        r := -1;
        errno := EBADF;
      }
      fds := fds - {fd};
      log := log + [CloseCall(fd)];
    }
  }
}
