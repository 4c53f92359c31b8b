/** Hierarchical names. A name is a sequence of components; URI escaping
    (`toUri`) is not modelled, so a component compares equal to a literal
    exactly when its URI form `/component` does. */
module Names {

  type Name = seq<string>

  /** `name.getSubName(0, name.size() - k)`: drops the last `k` components.
      The count is computed in unsigned arithmetic, so when the name has fewer
      than `k` components it wraps to a huge value and the whole name is kept. */
  function DropLast(name: Name, k: nat): (r: Name)
    ensures k <= |name| ==> |r| == |name| - k
    ensures k > |name| ==> r == name
    ensures r <= name
  {
    if k <= |name| then name[..|name| - k] else name
  }

  /** `name.getSubName(i, 1).toUri() == "/" + lit`: component `i` exists and equals `lit`. */
  predicate ComponentIs(name: Name, i: nat, lit: string) {
    i < |name| && name[i] == lit
  }

  predicate StartsWith(s: string, prefix: string) {
    prefix <= s
  }

  /** `s.find(needle) != npos`. */
  predicate Contains(s: string, needle: string)
    decreases |s|
  {
    StartsWith(s, needle) || (|s| > 0 && Contains(s[1..], needle))
  }

  /** Names of different lengths never coincide, so dropping one and dropping
      two components of the same non-trivial name give different prefixes. */
  lemma DropLastDistinct(name: Name)
    requires |name| >= 2
    ensures DropLast(name, 1) != DropLast(name, 2)
  {
    assert |DropLast(name, 1)| == |name| - 1;
    assert |DropLast(name, 2)| == |name| - 2;
  }
}
