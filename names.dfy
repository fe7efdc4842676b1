/**
 * File names as both programs see them: the two categories, Python's
 * `str.endswith`, the `.jar` filter applied to mods and the trailing `_`
 * that marks a quarantined file.
 */
module Names {
  /** The two sub-directories kept in step with the server. */
  datatype Category = Mods | Resourcepacks

  function Other(c: Category): (r: Category)
    ensures r != c
  {
    match c
    case Mods => Resourcepacks
    case Resourcepacks => Mods
  }

  /** The directory name of a category, on the server and on the client. */
  function DirName(c: Category): string
  {
    match c
    case Mods => "mods"
    case Resourcepacks => "resourcepacks"
  }

  const JarSuffix: string := ".jar"

  /** The character appended to a file name to quarantine the file. */
  const Marker: char := '_'

  /** Python's `s.endswith(suffix)`. */
  predicate EndsWith(s: string, suffix: string)
  {
    |suffix| <= |s| && s[|s| - |suffix|..] == suffix
  }

  predicate IsJar(name: string)
  {
    EndsWith(name, JarSuffix)
  }

  predicate IsMarked(name: string)
  {
    EndsWith(name, [Marker])
  }

  /** The name a quarantined file is renamed to: `f"{name}_"`. */
  function Mark(name: string): (r: string)
    ensures |r| == |name| + 1 && r[..|name|] == name
    ensures IsMarked(r) && !IsJar(r)
  {
    var r := name + [Marker];
    assert r[|r| - 1] == Marker;
    r
  }

  /** Two different names never quarantine to the same name. */
  lemma MarkInjective(a: string, b: string)
    requires Mark(a) == Mark(b)
    ensures a == b
  {
    assert a == (a + [Marker])[..|a|];
  }

  /** The names a set of files has after every one of them is quarantined. */
  function MarkAll(s: set<string>): (r: set<string>)
    ensures forall x :: x in s ==> Mark(x) in r
    ensures forall y :: y in r ==> exists x :: x in s && y == Mark(x)
    ensures forall y :: y in r ==> IsMarked(y)
  {
    set x | x in s :: Mark(x)
  }
}
