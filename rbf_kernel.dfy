/**
 * The mapping in getInterpArray_rbf from the requested method name to the
 * kernel ("function") of the radial basis fit.
 */
module RbfKernel {

  datatype Option<T> = None | Some(value: T)

  /** The kernels the radial basis fit is asked for. */
  const KernelNames: set<string> :=
    {"linear", "cubic", "quintic", "thin_plate", "multiquadric", "inverse", "gaussian"}

  /** Upper-case ASCII letters become lower-case; every other character is kept. */
  function LowerChar(c: char): char
  {
    if 'A' <= c <= 'Z' then (c as int - 'A' as int + 'a' as int) as char else c
  }

  predicate HasNoUpper(s: string)
  {
    forall i :: 0 <= i < |s| ==> !('A' <= s[i] <= 'Z')
  }

  /** str.lower on the ASCII range. */
  function Lower(s: string): (r: string)
    ensures |r| == |s| && HasNoUpper(r)
    ensures forall i :: 0 <= i < |s| ==> LowerChar(r[i]) == LowerChar(s[i])
  {
    seq(|s|, i requires 0 <= i < |s| => LowerChar(s[i]))
  }

  /** A string with no upper-case letter is its own lower-case form. */
  lemma {:induction false} LowerOfLowerCase(s: string)
    requires HasNoUpper(s)
    ensures Lower(s) == s
  {
    assert forall i :: 0 <= i < |s| ==> Lower(s)[i] == s[i];
  }

  lemma LowerIsIdempotent(s: string)
    ensures Lower(Lower(s)) == Lower(s)
  {
    LowerOfLowerCase(Lower(s));
  }

  /**
   * The name as the code reads it, `(my_method or "")`: the empty name exactly
   * when my_method is falsy (None or ""), and my_method itself otherwise.
   */
  function NameOrEmpty(requested: Option<string>): (name: string)
    ensures name == "" <==> requested.None? || requested.value == ""
    ensures requested.Some? ==> name == requested.value
  {
    match requested
    case None => ""
    case Some(s) => s
  }

  /**
   * The kernel chosen for a requested method: a supported kernel name, in any
   * letter case, is used as is; "nearest" becomes "linear"; anything else,
   * including my_method=None, becomes "thin_plate".
   */
  function KernelFor(requested: Option<string>): (k: string)
    ensures k in KernelNames
    ensures Lower(NameOrEmpty(requested)) in KernelNames ==> k == Lower(NameOrEmpty(requested))
    ensures Lower(NameOrEmpty(requested)) == "nearest" ==> k == "linear"
    ensures Lower(NameOrEmpty(requested)) !in KernelNames && Lower(NameOrEmpty(requested)) != "nearest" ==>
              k == "thin_plate"
  {
    var name := Lower(NameOrEmpty(requested));
    if name in KernelNames then name
    else if name == "nearest" then "linear"
    else "thin_plate"
  }

  lemma KernelNamesAreLowerCase(k: string)
    requires k in KernelNames
    ensures Lower(k) == k
  {
    LowerOfLowerCase(k);
  }

  /** Feeding the chosen kernel back in chooses it again. */
  lemma KernelForIsIdempotent(requested: Option<string>)
    ensures KernelFor(Some(KernelFor(requested))) == KernelFor(requested)
  {
    KernelNamesAreLowerCase(KernelFor(requested));
  }

  /** Names that differ only in letter case choose the same kernel. */
  lemma KernelForIgnoresCase(s: string, s': string)
    requires Lower(s) == Lower(s')
    ensures KernelFor(Some(s)) == KernelFor(Some(s'))
  {
  }

  lemma KernelForOfLowerCase(s: string)
    ensures KernelFor(Some(Lower(s))) == KernelFor(Some(s))
  {
    LowerIsIdempotent(s);
  }

  /** "nearest" in any letter case chooses the linear kernel. */
  lemma NearestChoosesLinear(s: string)
    requires Lower(s) == "nearest"
    ensures KernelFor(Some(s)) == "linear"
  {
    assert "nearest" !in KernelNames;
  }

  /** my_method=None, the empty name and an unrecognised name all choose thin_plate. */
  lemma FallbackIsThinPlate()
    ensures KernelFor(None) == "thin_plate"
    ensures KernelFor(Some("")) == "thin_plate"
    ensures KernelFor(Some("foobar")) == "thin_plate"
  {
    assert Lower("") == "";
    assert Lower("foobar") == "foobar" by { LowerOfLowerCase("foobar"); }
  }

  /** Concrete requests: letter case is ignored and nearest is replaced. */
  lemma ExampleMappings()
    ensures KernelFor(Some("NEAREST")) == "linear"
    ensures KernelFor(Some("Gaussian")) == "gaussian"
    ensures KernelFor(Some("Thin_Plate")) == "thin_plate"
  {
    assert Lower("NEAREST") == "nearest";
    assert Lower("Gaussian") == "gaussian";
    assert Lower("Thin_Plate") == "thin_plate";
  }
}
