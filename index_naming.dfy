/**
 * Concrete index names: a document's base name, optionally followed by the version
 * separator `--` and a suffix. The base name itself is used as the alias that points
 * at the active concrete index.
 */
module IndexNaming {

  import opened Wrappers

  /** `Document.VERSION_NAME_SEPARATOR`. */
  const Separator: string := "--"

  /** Python truthiness of an optional string: neither `None` nor empty. */
  predicate Present(suffix: Option<string>)
  {
    suffix.Some? && suffix.value != []
  }

  /** The names the listing pattern `<base>--*` matches. */
  predicate IsGenerationOf(base: string, name: string)
  {
    |base| + |Separator| <= |name| && name[..|base| + |Separator|] == base + Separator
  }

  /** The part of a generation name after `<base>--`. */
  function SuffixOf(base: string, name: string): string
    requires IsGenerationOf(base, name)
  {
    name[|base| + |Separator|..]
  }

  /**
   * `Document.get_index_name(suffix)`: `<base>--<suffix>` for a present suffix, the bare
   * base name for `None` or an empty suffix. A suffixed name is always a generation of
   * the base from which the suffix can be read back; the bare name never is.
   */
  function IndexName(base: string, suffix: Option<string>): (r: string)
    ensures IsGenerationOf(base, r) <==> Present(suffix)
    ensures Present(suffix) ==> SuffixOf(base, r) == suffix.value
    ensures !Present(suffix) ==> r == base
  {
    if Present(suffix) then
      var r := base + Separator + suffix.value;
      assert r[..|base| + |Separator|] == base + Separator;
      r
    else base
  }

  /** Two generations of one base are the same index only when their suffixes agree. */
  lemma IndexNameInjective(base: string, s1: string, s2: string)
    requires s1 != [] && s2 != []
    requires IndexName(base, Some(s1)) == IndexName(base, Some(s2))
    ensures s1 == s2
  {
    assert SuffixOf(base, IndexName(base, Some(s1))) == s1;
  }
}
