/**
 * Which file each blendshape slot of VisualizeReconstructionResult is read
 * from. Slot 0 is the neutral shape and slots 1..46 the expression deltas;
 * slot i comes from `<dir>/Binit_<i>.obj` when the "init" option is present
 * and from `<dir>/B_<i>.obj` otherwise, with <i> written as by `to_string`.
 */
module BlendshapeFiles {

  /** The number of expression deltas; slots run 0..NumBlendshapes. */
  const NumBlendshapes: nat := 46

  predicate IsDigit(c: char)
  {
    '0' <= c <= '9'
  }

  function DigitChar(d: nat): (c: char)
    requires d < 10
    ensures IsDigit(c) && c as int - '0' as int == d
  {
    ('0' as int + d) as char
  }

  /** Decimal text of a non-negative integer, most significant digit first, as `to_string` writes it. */
  function Decimal(n: nat): (s: string)
    ensures |s| >= 1
    ensures forall k :: 0 <= k < |s| ==> IsDigit(s[k])
    ensures |s| > 1 ==> s[0] != '0'
  {
    if n < 10 then [DigitChar(n)] else Decimal(n / 10) + [DigitChar(n % 10)]
  }

  /** The value of a string of decimal digits. */
  function DecimalValue(s: string): int
  {
    if s == [] then 0 else 10 * DecimalValue(s[..|s| - 1]) + (s[|s| - 1] as int - '0' as int)
  }

  /** Reading back the text of n gives n. */
  lemma {:induction false} DecimalRoundTrip(n: nat)
    ensures DecimalValue(Decimal(n)) == n
  {
    var s := Decimal(n);
    if n >= 10 {
      DecimalRoundTrip(n / 10);
      assert s[..|s| - 1] == Decimal(n / 10);
    }
  }

  /** Distinct numbers have distinct decimal texts. */
  lemma DecimalInjective(i: nat, j: nat)
    ensures Decimal(i) == Decimal(j) <==> i == j
  {
    DecimalRoundTrip(i);
    DecimalRoundTrip(j);
  }

  /** The file-name prefix of the two naming schemes. */
  function Prefix(init: bool): string
  {
    if init then "Binit_" else "B_"
  }

  /** The file slot i is loaded from; `extraOptions` decides the naming scheme by holding "init" or not. */
  function BlendshapeFilename(dir: string, extraOptions: map<string, string>, i: nat): string
  {
    dir + "/" + Prefix("init" in extraOptions) + Decimal(i) + ".obj"
  }

  /** What a file name is made of: directory, separator, prefix, digits of the slot, extension. */
  lemma FilenameShape(dir: string, extraOptions: map<string, string>, i: nat)
    ensures var name, p := BlendshapeFilename(dir, extraOptions, i), |dir| + 1 + |Prefix("init" in extraOptions)|;
      && |name| == p + |Decimal(i)| + 4
      && name[..|dir|] == dir && name[|dir|] == '/'
      && name[|dir| + 1..p] == (if "init" in extraOptions then "Binit_" else "B_")
      && name[p..p + |Decimal(i)|] == Decimal(i)
      && name[p + |Decimal(i)|..] == ".obj"
  {
  }

  /** Two slots share a file name only if they are the same slot. */
  lemma FilenameInjective(dir: string, extraOptions: map<string, string>, i: nat, j: nat)
    ensures BlendshapeFilename(dir, extraOptions, i) == BlendshapeFilename(dir, extraOptions, j) <==> i == j
  {
    var p := |dir| + 1 + |Prefix("init" in extraOptions)|;
    var a, b := BlendshapeFilename(dir, extraOptions, i), BlendshapeFilename(dir, extraOptions, j);
    FilenameShape(dir, extraOptions, i);
    FilenameShape(dir, extraOptions, j);
    if a == b {
      assert Decimal(i) == a[p..|a| - 4] == Decimal(j);
      DecimalInjective(i, j);
    }
  }

  /** The file name of every slot 0..NumBlendshapes, filled slot by slot. */
  method BlendshapeFilenames(dir: string, extraOptions: map<string, string>) returns (names: seq<string>)
    ensures |names| == NumBlendshapes + 1
    ensures forall i :: 0 <= i < |names| ==> names[i] == BlendshapeFilename(dir, extraOptions, i)
    ensures forall i, j :: 0 <= i < j < |names| ==> names[i] != names[j]
  {
    var slots := new string[NumBlendshapes + 1];
    for i := 0 to NumBlendshapes + 1
      invariant forall k :: 0 <= k < i ==> slots[k] == BlendshapeFilename(dir, extraOptions, k)
    {
      if "init" in extraOptions {
        slots[i] := dir + "/" + "Binit_" + Decimal(i) + ".obj";
      } else {
        slots[i] := dir + "/" + "B_" + Decimal(i) + ".obj";
      }
    }
    names := slots[..];
    forall i, j | 0 <= i < j < |names|
      ensures names[i] != names[j]
    {
      FilenameInjective(dir, extraOptions, i, j);
    }
  }
}
