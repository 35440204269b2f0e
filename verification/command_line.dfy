/** `Main`: turns the three optional command-line arguments (plane count,
    drawing probability, output file name) into the settings the scene is
    built with, substituting a default for each one that is missing or bad.
    Java's number parsers are parameters: each returns `None` where the Java
    parser throws. */
module CommandLine {
  import opened Wrappers

  /** A Java `double` as `Double.parseDouble` can return it. */
  datatype Double = Finite(value: real) | PosInf | NegInf | NaN

  /** Java's `<` on doubles: false whenever either side is NaN. */
  predicate Less(a: Double, b: Double)
  {
    match (a, b)
    case (Finite(x), Finite(y)) => x < y
    case (NegInf, Finite(_)) => true
    case (NegInf, PosInf) => true
    case (Finite(_), PosInf) => true
    case _ => false
  }

  /** A probability: a finite value in [0, 1]. */
  predicate InUnit(p: Double)
  {
    p.Finite? && 0.0 <= p.value <= 1.0
  }

  const DefaultPlanes := 10
  const DefaultProbability := Finite(0.5)

  /** `isPositiveInteger` (lines 94-118): the empty string is rejected before
      parsing; otherwise the candidate must parse to a value above zero. */
  function IsPositiveInteger(candidate: string, parseInt: string -> Option<int>): (r: bool)
    ensures candidate == [] ==> !r
    ensures r ==> parseInt(candidate).Some? && parseInt(candidate).value > 0
    ensures candidate != [] && parseInt(candidate).Some? && parseInt(candidate).value > 0 ==> r
  {
    if candidate == [] then false
    else match parseInt(candidate)
      case None => false
      case Some(t) => t > 0
  }

  /** `isDouble` (lines 121-137): the empty string is rejected before parsing;
      otherwise the candidate must parse. */
  function IsDouble(candidate: string, parseDouble: string -> Option<Double>): (r: bool)
    ensures candidate == [] ==> !r
    ensures r <==> candidate != [] && parseDouble(candidate).Some?
  {
    candidate != [] && parseDouble(candidate).Some?
  }

  /** Lines 33-40: the first argument when it is a positive integer, else 10. */
  function PlaneCount(args: seq<string>, parseInt: string -> Option<int>): (r: int)
    ensures r > 0
    ensures (|args| > 0 && args[0] != [] && parseInt(args[0]).Some? && parseInt(args[0]).value > 0) ==>
              r == parseInt(args[0]).value
    ensures r != DefaultPlanes ==> |args| > 0 && parseInt(args[0]) == Some(r)
  {
    if |args| > 0 && IsPositiveInteger(args[0], parseInt) then parseInt(args[0]).value else DefaultPlanes
  }

  /** Lines 43-55 as written: a parsed second argument is replaced by 0.5 when
      it is below 0 or above 1. Both comparisons are false for NaN, which
      therefore passes. */
  function ProbabilityAsWritten(args: seq<string>, parseDouble: string -> Option<Double>): (r: Double)
    ensures r != DefaultProbability ==> |args| > 1 && parseDouble(args[1]) == Some(r)
    ensures r == NaN || InUnit(r)
    ensures (|args| > 1 && args[1] != [] && parseDouble(args[1]).Some? &&
             (InUnit(parseDouble(args[1]).value) || parseDouble(args[1]).value == NaN)) ==>
              r == parseDouble(args[1]).value
  {
    if |args| > 1 && IsDouble(args[1], parseDouble) then
      var p := parseDouble(args[1]).value;
      if Less(p, Finite(0.0)) || Less(Finite(1.0), p) then DefaultProbability else p
    else DefaultProbability
  }

  /** The string "NaN", which `Double.parseDouble` accepts. */
  function NaNParser(s: string): Option<Double>
  {
    if s == "NaN" then Some(NaN) else None
  }

  /** As written, a probability argument of "NaN" becomes the probability. */
  lemma NaNProbabilityAccepted()
    ensures ProbabilityAsWritten(["10", "NaN"], NaNParser) == NaN
    ensures !InUnit(ProbabilityAsWritten(["10", "NaN"], NaNParser))
  {
  }

  /** Lines 43-55 as intended: the parsed second argument is kept exactly when
      it lies in [0, 1]. */
  function Probability(args: seq<string>, parseDouble: string -> Option<Double>): (r: Double)
    ensures InUnit(r)
    ensures r != DefaultProbability ==> |args| > 1 && parseDouble(args[1]) == Some(r)
    ensures (|args| > 1 && args[1] != [] && parseDouble(args[1]).Some? && InUnit(parseDouble(args[1]).value)) ==>
              r == parseDouble(args[1]).value
  {
    if |args| > 1 && IsDouble(args[1], parseDouble) && InUnit(parseDouble(args[1]).value)
    then parseDouble(args[1]).value
    else DefaultProbability
  }

  /** The two readings agree on every argument except NaN. */
  lemma ProbabilityAgreesOffNaN(args: seq<string>, parseDouble: string -> Option<Double>)
    ensures !(|args| > 1 && parseDouble(args[1]) == Some(NaN)) ==>
              ProbabilityAsWritten(args, parseDouble) == Probability(args, parseDouble)
  {
  }

  predicate EndsWith(s: string, suffix: string)
  {
    |s| >= |suffix| && s[|s| - |suffix|..] == suffix
  }

  /** Lines 62-66: ".obj" is appended unless the name is at least five
      characters long and already ends in ".obj". */
  function ObjFilename(name: string): (r: string)
    ensures EndsWith(r, ".obj") && |r| >= 4
    ensures r == name || r == name + ".obj"
    ensures r == name <==> |name| >= 5 && EndsWith(name, ".obj")
  {
    if |name| < 5 || !EndsWith(name, ".obj") then name + ".obj" else name
  }

  /** ".obj" on its own is too short to be kept and becomes ".obj.obj";
      so does the empty name, normalised twice. */
  lemma BareSuffixDoubled()
    ensures ObjFilename(".obj") == ".obj.obj"
    ensures ObjFilename([]) == ".obj"
  {
  }

  /** Normalising twice changes nothing more, except for the empty name: its
      ".obj" is itself too short and gains a second suffix. */
  lemma ObjFilenameSettles(name: string)
    requires name != []
    ensures ObjFilename(ObjFilename(name)) == ObjFilename(name)
  {
    var r := name + ".obj";
    assert r[|r| - 4..] == ".obj";
  }

  /** With arguments the scene is built directly; without, the viewer opens
      to confirm the settings first. */
  datatype Launch = Headless | Viewer

  datatype Settings = Settings(planes: int, probability: Double, filename: string, launch: Launch)

  /** `main` (lines 26-91), with the probability check as written. `stamp` is
      the current date and time as "yyyy-MM-dd-HH-mm-ss" would format it,
      which names the output when no name is given. */
  function ParseArgs(args: seq<string>, parseInt: string -> Option<int>,
                     parseDouble: string -> Option<Double>, stamp: string): (r: Settings)
    ensures r.planes > 0 && (r.probability == NaN || InUnit(r.probability)) && EndsWith(r.filename, ".obj")
    ensures r.planes == PlaneCount(args, parseInt) && r.probability == ProbabilityAsWritten(args, parseDouble)
    ensures |args| > 2 ==> r.filename == ObjFilename(args[2])
    ensures |args| <= 2 ==> r.filename == stamp + ".obj"
    ensures r.launch == Headless <==> |args| > 0
    ensures |args| == 0 ==> r.planes == DefaultPlanes && r.probability == DefaultProbability
  {
    Settings(PlaneCount(args, parseInt), ProbabilityAsWritten(args, parseDouble), OutputName(args, stamp),
             if |args| > 0 then Headless else Viewer)
  }

  /** The output file name `main` settles on. */
  function OutputName(args: seq<string>, stamp: string): (r: string)
    ensures EndsWith(r, ".obj")
  {
    var filename := if |args| > 2 then ObjFilename(args[2]) else stamp + ".obj";
    assert EndsWith(stamp + ".obj", ".obj") by {
      var f := stamp + ".obj";
      assert f[|f| - 4..] == ".obj";
    }
    filename
  }

  /** `main` with the intended probability check: the same settings, except
      that a NaN probability falls back to the default. */
  function ParseArgsIntended(args: seq<string>, parseInt: string -> Option<int>,
                             parseDouble: string -> Option<Double>, stamp: string): (r: Settings)
    ensures InUnit(r.probability) && r.probability == Probability(args, parseDouble)
    ensures r == ParseArgs(args, parseInt, parseDouble, stamp).(probability := r.probability)
    ensures !(|args| > 1 && parseDouble(args[1]) == Some(NaN)) ==> r == ParseArgs(args, parseInt, parseDouble, stamp)
  {
    ProbabilityAgreesOffNaN(args, parseDouble);
    ParseArgs(args, parseInt, parseDouble, stamp).(probability := Probability(args, parseDouble))
  }
}
