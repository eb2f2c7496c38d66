/**
 * `getModuleSize` and `formatFileSize`: the byte count read from the first line of
 * `busybox du -sb <module dir>`, and the binary unit it is shown in.
 * The shell run is an input; the floating-point rendering of the scaled number is
 * outside the model, the choice of unit is modelled in integers.
 */
module ModuleSize {
  import opened Wrappers
  import opened Strings

  /** A finished shell job: whether it succeeded and its standard output, line by line. */
  datatype ShellResult = ShellResult(isSuccess: bool, out: seq<string>)

  /** The text before the first tab: `split("\t").firstOrNull()`, which is never null. */
  function FirstField(line: string): (f: string)
    ensures |f| <= |line| && f == line[..|f|]
    ensures '\t' !in f
    ensures |f| < |line| ==> line[|f|] == '\t'
  {
    if line == [] || line[0] == '\t' then [] else [line[0]] + FirstField(line[1..])
  }

  /**
   * The byte count of `getModuleSize`: the first tab-separated field of the first output line
   * as a Long; 0 when the job failed or threw (`None`), printed nothing, or the field is no Long.
   */
  function DuBytes(job: Option<ShellResult>): (bytes: Long)
    ensures job.None? || !job.value.isSuccess || job.value.out == [] ==> bytes == 0
    ensures job.Some? && job.value.isSuccess && job.value.out != [] ==>
      bytes == ParseLong(FirstField(job.value.out[0])).GetOr(0)
  {
    match job
    case None => 0
    case Some(r) =>
      if r.isSuccess && |r.out| > 0 then ParseLong(FirstField(r.out[0])).GetOr(0) else 0
  }

  /** `du` prints `<bytes>\t<path>`: the number it printed is the size read back. */
  lemma DuBytesReadsPrintedSize(n: nat, path: string, rest: seq<string>)
    requires n <= LongMax
    ensures DuBytes(Some(ShellResult(true, [DecimalString(n) + "\t" + path] + rest))) == n
  {
    var line := DecimalString(n) + "\t" + path;
    DecimalStringDigits(n);
    assert '\t' !in DecimalString(n) by {
      assert forall k :: 0 <= k < |DecimalString(n)| ==> IsDigit(DecimalString(n)[k]);
    }
    FirstFieldOfTabbed(DecimalString(n), path);
    ParseLongDecimal(n);
  }

  /** The first field of `f + "\t" + rest` is `f` when `f` holds no tab. */
  lemma {:induction false} FirstFieldOfTabbed(f: string, rest: string)
    requires '\t' !in f
    ensures FirstField(f + "\t" + rest) == f
  {
    if f != [] {
      assert (f + "\t" + rest)[1..] == f[1..] + "\t" + rest;
      FirstFieldOfTabbed(f[1..], rest);
    }
  }

  // ---------------------------------------------------------------------------
  // formatFileSize

  const UnitNames: seq<string> := ["B", "KB", "MB", "GB", "TB"]

  function Pow1024(k: nat): (p: nat)
    ensures p >= 1
  {
    if k == 0 then 1 else 1024 * Pow1024(k - 1)
  }

  /** The size text: "0 KB", or a number scaled by `1024^unit` followed by `UnitNames[unit]`. */
  datatype SizeText = ZeroKb | Scaled(bytes: int, unit: nat) {
    function UnitName(): string
      requires Scaled? ==> unit < |UnitNames|
    {
      if ZeroKb? then "KB" else UnitNames[unit]
    }
  }

  /** A unit index that is right for `bytes`: `1024^k <= bytes`, and below the next power unless k is TB. */
  predicate RightUnit(bytes: int, k: nat) {
    k < |UnitNames| && Pow1024(k) <= bytes && (k + 1 < |UnitNames| ==> bytes < Pow1024(k + 1))
  }

  /** Searches upward from unit `k` for the largest power of 1024 not above `bytes`, stopping at TB. */
  function UnitFrom(bytes: int, k: nat): (u: nat)
    requires k < |UnitNames| && Pow1024(k) <= bytes
    ensures RightUnit(bytes, u)
    decreases |UnitNames| - k
  {
    if k + 1 == |UnitNames| || bytes < Pow1024(k + 1) then k else UnitFrom(bytes, k + 1)
  }

  /**
   * `formatFileSize` without the number rendering: "0 KB" for a count that is not positive,
   * else the unit `floor(log1024(bytes))` clamped to TB.
   */
  function FormatFileSize(bytes: Long): (t: SizeText)
    ensures t == ZeroKb <==> bytes <= 0
    ensures t.Scaled? ==> t.bytes == bytes && RightUnit(bytes, t.unit)
  {
    if bytes <= 0 then ZeroKb else Scaled(bytes, UnitFrom(bytes, 0))
  }

  lemma {:induction false} Pow1024Monotone(i: nat, j: nat)
    ensures i <= j ==> Pow1024(i) <= Pow1024(j)
    decreases j
  {
    if i < j {
      Pow1024Monotone(i, j - 1);
    }
  }

  /** There is one right unit for each positive count: the one `formatFileSize` picks. */
  lemma RightUnitIsUnique(bytes: Long, k: nat)
    requires bytes > 0 && RightUnit(bytes, k)
    ensures FormatFileSize(bytes) == Scaled(bytes, k)
  {
    var u := FormatFileSize(bytes).unit;
    Pow1024Monotone(u + 1, k);
    Pow1024Monotone(k + 1, u);
  }

  /** 1536 bytes are shown in KB and 1073741824 bytes in GB; 0 bytes read "0 KB". */
  lemma UnitExamples()
    ensures FormatFileSize(1536).UnitName() == "KB"
    ensures FormatFileSize(1073741824).UnitName() == "GB"
    ensures FormatFileSize(0) == ZeroKb && FormatFileSize(0).UnitName() == "KB"
  {
    assert Pow1024(1) == 1024 && Pow1024(2) == 1048576 && Pow1024(3) == 1073741824 && Pow1024(4) == 1099511627776;
    RightUnitIsUnique(1536, 1);
    RightUnitIsUnique(1073741824, 3);
  }

  /** `getModuleSize` as a value: the size text of the byte count `du` reported. */
  function ModuleSizeText(job: Option<ShellResult>): (t: SizeText)
    ensures DuBytes(job) <= 0 <==> t == ZeroKb
    ensures t.Scaled? ==> t.bytes == DuBytes(job) && RightUnit(t.bytes, t.unit)
  {
    FormatFileSize(DuBytes(job))
  }
}
