/** The optimisation-level table of the PNG optimiser front end: a level 0..9
    selects the argument string handed to the PNG optimiser, every larger
    `u8` is refused. */
module OptLevels {

  /** Rust's `u8`. */
  type U8 = x: int | 0 <= x < 256

  /** `Result<T, anyhow::Error>`, with the error carried as its message. */
  datatype Result<T> = Ok(value: T) | Err(error: string)

  datatype Option<T> = None | Some(value: T)

  /** The flags shared by every level (STATIC_OXIPNG_OPTS). */
  const StaticOxipngOpts: string := "-p -b --fix "

  const InvalidRangeMessage: string := "Invalid range, opt_level must be between 0 and 9 inclusive."

  /** The highest level that has an entry in the table. */
  const MaxOptLevel: U8 := 9

  /** The level-specific suffixes, indexed by level: the reference table
      that the match in GetOxipngOptions is proved to agree with. */
  const LevelSuffixes: seq<string> := [
    "-o 0",
    "-o 1",
    "--zc 9 --zs 0-3 -f 0,5 --nz",
    "-o 2",
    "-o 3",
    "--zc 9 --zs 0-3 -f 0-5 -a",
    "-o 5",
    "--zc 3-9 --zs 0-3 -f 0-5 -a",
    "--zc 1-9 --zs 0-3 -f 0-5 -a --zw 16k,32k",
    "--zc 1-9 --zs 0-3 -f 0-5 -a -Z"
  ]

  /** The argument string for `optLevel`: the shared prefix followed by one
      level-specific suffix, or an error for levels 10..255. */
  function GetOxipngOptions(optLevel: U8): (r: Result<string>)
    ensures r.Ok? <==> optLevel <= MaxOptLevel
    ensures r.Err? ==> r.error == InvalidRangeMessage
    ensures r.Ok? ==> |r.value| > |StaticOxipngOpts|
    ensures r.Ok? ==> r.value[..|StaticOxipngOpts|] == StaticOxipngOpts
  {
    match optLevel
    case 0 => Ok(StaticOxipngOpts + "-o 0")
    case 1 => Ok(StaticOxipngOpts + "-o 1")
    case 2 => Ok(StaticOxipngOpts + "--zc 9 --zs 0-3 -f 0,5 --nz")
    case 3 => Ok(StaticOxipngOpts + "-o 2")
    case 4 => Ok(StaticOxipngOpts + "-o 3")
    case 5 => Ok(StaticOxipngOpts + "--zc 9 --zs 0-3 -f 0-5 -a")
    case 6 => Ok(StaticOxipngOpts + "-o 5")
    case 7 => Ok(StaticOxipngOpts + "--zc 3-9 --zs 0-3 -f 0-5 -a")
    case 8 => Ok(StaticOxipngOpts + "--zc 1-9 --zs 0-3 -f 0-5 -a --zw 16k,32k")
    case 9 => Ok(StaticOxipngOpts + "--zc 1-9 --zs 0-3 -f 0-5 -a -Z")
    // the arm 10..=u8::MAX
    case _ => Err(InvalidRangeMessage)
  }

  /** The whole table: every `u8` falls in exactly one arm, levels 0..9 give
      the prefix plus that level's suffix and 10..255 give the range error. */
  lemma OptionsTable(optLevel: U8)
    ensures GetOxipngOptions(optLevel) ==
      if optLevel <= MaxOptLevel then Ok(StaticOxipngOpts + LevelSuffixes[optLevel])
      else Err(InvalidRangeMessage)
  {
  }

  /** No two levels share a suffix. */
  lemma SuffixesDistinct()
    ensures |LevelSuffixes| == MaxOptLevel + 1
    ensures forall i, j :: 0 <= i < j < |LevelSuffixes| ==> LevelSuffixes[i] != LevelSuffixes[j]
  {
  }

  /** The index of the first entry at or after `from` equal to `suffix`. */
  function FindSuffix(suffix: string, from: nat): (r: Option<U8>)
    requires from <= |LevelSuffixes|
    ensures r.Some? ==> from <= r.value < |LevelSuffixes| && LevelSuffixes[r.value] == suffix
    ensures r.None? ==> forall l :: from <= l < |LevelSuffixes| ==> LevelSuffixes[l] != suffix
    decreases |LevelSuffixes| - from
  {
    if from == |LevelSuffixes| then None
    else if LevelSuffixes[from] == suffix then Some(from)
    else FindSuffix(suffix, from + 1)
  }

  /** Reads back the level an argument string was made for; the inverse of
      GetOxipngOptions on its successful results. */
  function LevelOf(args: string): (r: Option<U8>)
    ensures r.Some? ==> r.value <= MaxOptLevel && GetOxipngOptions(r.value) == Ok(args)
  {
    var n := |StaticOxipngOpts|;
    if n <= |args| && args[..n] == StaticOxipngOpts then
      var found := FindSuffix(args[n..], 0);
      if found.Some? then
        OptionsTable(found.value);
        assert args == StaticOxipngOpts + args[n..];
        found
      else None
    else None
  }

  /** Round trip: the level is recovered from the string it produced. */
  lemma LevelOfOptions(optLevel: U8)
    requires optLevel <= MaxOptLevel
    ensures GetOxipngOptions(optLevel).Ok?
    ensures LevelOf(GetOxipngOptions(optLevel).value) == Some(optLevel)
  {
    OptionsTable(optLevel);
    SuffixesDistinct();
    var args := GetOxipngOptions(optLevel).value;
    var n := |StaticOxipngOpts|;
    assert args[n..] == LevelSuffixes[optLevel];
    var found := FindSuffix(args[n..], 0);
    assert found.Some?;
  }

  /** Distinct valid levels give distinct argument strings. */
  lemma OptionsInjective(a: U8, b: U8)
    requires a <= MaxOptLevel && b <= MaxOptLevel
    requires a != b
    ensures GetOxipngOptions(a) != GetOxipngOptions(b)
  {
    LevelOfOptions(a);
    LevelOfOptions(b);
  }
}
