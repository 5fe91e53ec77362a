/**
 * The cpufreq attribute identifiers, their sysfs path templates, their
 * default open modes, and snprintf of a template into the 128-byte path
 * buffer.
 */
module Files {
  import opened CTypes
  import Decimal

  /** The 15 values of the cpufreq_bindings_file enum, in declaration order. */
  datatype FileId =
    | AffectedCpus
    | BiosLimit
    | CpuinfoCurFreq
    | CpuinfoMaxFreq
    | CpuinfoMinFreq
    | CpuinfoTransitionLatency
    | RelatedCpus
    | ScalingAvailableFrequencies
    | ScalingAvailableGovernors
    | ScalingCurFreq
    | ScalingDriver
    | ScalingGovernor
    | ScalingMaxFreq
    | ScalingMinFreq
    | ScalingSetspeed

  /** The integer the C compiler gives each enumerator. */
  function Ordinal(f: FileId): (n: nat)
    ensures n < 15
  {
    match f
    case AffectedCpus => 0
    case BiosLimit => 1
    case CpuinfoCurFreq => 2
    case CpuinfoMaxFreq => 3
    case CpuinfoMinFreq => 4
    case CpuinfoTransitionLatency => 5
    case RelatedCpus => 6
    case ScalingAvailableFrequencies => 7
    case ScalingAvailableGovernors => 8
    case ScalingCurFreq => 9
    case ScalingDriver => 10
    case ScalingGovernor => 11
    case ScalingMaxFreq => 12
    case ScalingMinFreq => 13
    case ScalingSetspeed => 14
  }

  /** The enumerator whose value is n; an int outside 0..14 names none. */
  function FromOrdinal(n: int): (r: Option<FileId>)
    ensures r.Some? <==> 0 <= n < 15
    ensures r.Some? ==> Ordinal(r.value) == n
  {
    if n == 0 then Some(AffectedCpus)
    else if n == 1 then Some(BiosLimit)
    else if n == 2 then Some(CpuinfoCurFreq)
    else if n == 3 then Some(CpuinfoMaxFreq)
    else if n == 4 then Some(CpuinfoMinFreq)
    else if n == 5 then Some(CpuinfoTransitionLatency)
    else if n == 6 then Some(RelatedCpus)
    else if n == 7 then Some(ScalingAvailableFrequencies)
    else if n == 8 then Some(ScalingAvailableGovernors)
    else if n == 9 then Some(ScalingCurFreq)
    else if n == 10 then Some(ScalingDriver)
    else if n == 11 then Some(ScalingGovernor)
    else if n == 12 then Some(ScalingMaxFreq)
    else if n == 13 then Some(ScalingMinFreq)
    else if n == 14 then Some(ScalingSetspeed)
    else None
  }

  /** The enum is exactly the 15 values 0..14: the ordinal is a bijection onto them. */
  lemma OrdinalBijection(f: FileId, g: FileId)
    ensures FromOrdinal(Ordinal(f)) == Some(f)
    ensures Ordinal(f) == Ordinal(g) ==> f == g
  {
    assert FromOrdinal(Ordinal(g)) == Some(g);
  }

  /** The sysfs file name of each attribute. */
  function Name(f: FileId): string
  {
    match f
    case AffectedCpus => "affected_cpus"
    case BiosLimit => "bios_limit"
    case CpuinfoCurFreq => "cpuinfo_cur_freq"
    case CpuinfoMaxFreq => "cpuinfo_max_freq"
    case CpuinfoMinFreq => "cpuinfo_min_freq"
    case CpuinfoTransitionLatency => "cpuinfo_transition_latency"
    case RelatedCpus => "related_cpus"
    case ScalingAvailableFrequencies => "scaling_available_frequencies"
    case ScalingAvailableGovernors => "scaling_available_governors"
    case ScalingCurFreq => "scaling_cur_freq"
    case ScalingDriver => "scaling_driver"
    case ScalingGovernor => "scaling_governor"
    case ScalingMaxFreq => "scaling_max_freq"
    case ScalingMinFreq => "scaling_min_freq"
    case ScalingSetspeed => "scaling_setspeed"
  }

  /** Each attribute has its own file name. */
  lemma NamesDistinct(f: FileId, g: FileId)
    ensures Name(f) == Name(g) ==> f == g
  {
  }

  /** No file name is longer than 29 characters. */
  lemma NameShort(f: FileId)
    ensures |Name(f)| <= 29
  {
  }

  const CPU_DIR: string := "/sys/devices/system/cpu/cpu"
  const CPUFREQ_DIR: string := "/cpufreq/"

  /** The printf template of a file, with "%u" (PRIu32) where the core goes. */
  function Template(f: FileId): string
  {
    CPU_DIR + ("%u" + (CPUFREQ_DIR + Name(f)))
  }

  /** The sysfs path of attribute f of a core: /sys/devices/system/cpu/cpu<core>/cpufreq/<name>. */
  function SysfsPath(f: FileId, core: u32): string
  {
    CPU_DIR + (Decimal.Digits(core as nat) + (CPUFREQ_DIR + Name(f)))
  }

  /** The path template of an enum value, or None where the C code sets EINVAL and returns NULL. */
  function FileToTemplate(file: int): (r: Option<string>)
    ensures r.Some? <==> 0 <= file < 15
    ensures r.Some? ==> r.value == Template(FromOrdinal(file).value)
  {
    match FromOrdinal(file)
    case Some(f) => Some(Template(f))
    case None => None
  }

  /** The default open mode of an enum value. */
  function FileToFlags(file: int): (r: nat)
  {
    match FromOrdinal(file)
    case Some(ScalingGovernor) => O_RDWR
    case Some(ScalingMaxFreq) => O_RDWR
    case Some(ScalingMinFreq) => O_RDWR
    case Some(ScalingSetspeed) => O_RDWR
    case _ => O_RDONLY
  }

  /** Read-write exactly for the four attributes that have setters; read-only otherwise. */
  lemma DefaultMode(file: int)
    ensures FileToFlags(file) == O_RDWR <==>
              FromOrdinal(file) in {Some(ScalingGovernor), Some(ScalingMaxFreq), Some(ScalingMinFreq), Some(ScalingSetspeed)}
    ensures FileToFlags(file) != O_RDWR ==> FileToFlags(file) == O_RDONLY
    ensures !(0 <= file < 15) ==> FileToFlags(file) == O_RDONLY
  {
  }

  /** printf of a template whose only conversion is "%u". */
  function Format(t: string, core: u32): string
  {
    if |t| >= 2 && t[0] == '%' && t[1] == 'u' then Decimal.Digits(core as nat) + t[2..]
    else if t == [] then []
    else [t[0]] + Format(t[1..], core)
  }

  lemma {:induction false} FormatLiteral(p: string, rest: string, core: u32)
    requires '%' !in p
    ensures Format(p + rest, core) == p + Format(rest, core)
    decreases |p|
  {
    if p != [] {
      assert (p + rest)[1..] == p[1..] + rest;
      assert p[0] in p;
      FormatLiteral(p[1..], rest, core);
    } else {
      assert p + rest == rest;
    }
  }

  lemma FormatPlaceholder(rest: string, core: u32)
    ensures Format("%u" + rest, core) == Decimal.Digits(core as nat) + rest
  {
    var t := "%u" + rest;
    assert t[0] == '%' && t[1] == 'u' && t[2..] == rest;
  }

  lemma CpuDirLiteral()
    ensures '%' !in CPU_DIR
  {
  }

  /** Formatting a template puts the decimal core index where "%u" stood. */
  lemma FormatTemplate(f: FileId, core: u32)
    ensures Format(Template(f), core) == SysfsPath(f, core)
  {
    CpuDirLiteral();
    FormatLiteral(CPU_DIR, "%u" + (CPUFREQ_DIR + Name(f)), core);
    FormatPlaceholder(CPUFREQ_DIR + Name(f), core);
  }

  const TEMPLATE_MAX_LEN: nat := 128

  /** snprintf into a buffer of n bytes keeps at most n - 1 characters before the NUL. */
  function Snprintf(n: nat, s: string): (r: string)
    requires n >= 1
    ensures |r| < n && r <= s
    ensures |s| < n ==> r == s
  {
    if |s| < n then s else s[..n - 1]
  }

  /** The path cpufreq_bindings_open_file_template hands to open(2). */
  function TemplatePath(t: string, core: u32): string
  {
    Snprintf(TEMPLATE_MAX_LEN, Format(t, core))
  }

  /**
   * For every identifier and every uint32 core the formatted path is below
   * 128 bytes, so snprintf never truncates it and the open(2) path is
   * exactly /sys/devices/system/cpu/cpu<core>/cpufreq/<name>.
   */
  lemma PathFits(f: FileId, core: u32)
    ensures |Format(Template(f), core)| < TEMPLATE_MAX_LEN
    ensures TemplatePath(Template(f), core) == SysfsPath(f, core)
  {
    FormatTemplate(f, core);
    Decimal.U32DigitsAtMostTen(core);
    NameShort(f);
  }
}
