/** Copies through text: what printing linked nodes and parsing the text makes of them. */
module JsonCopy {
  import opened Bytes
  import opened JsonTree
  import opened JsonGrammar
  import opened JsonRoundTrip
  import opened JsonDuplicate
  import opened JsonNodes
  import opened Wrappers

  /** Printing a tree of nodes and parsing the text gives nodes that show the same, and print the same. */
  lemma CopyThroughText(t: Tree, fmt: bool, again: bool, strtod: Strtod)
    requires Shown(t).Some? && Exact(Shown(t).value) && Nesting(Shown(t).value) <= NESTING_LIMIT
    requires ReadsIntegers(strtod)
    ensures NulFree(Printed(t, fmt).value)
    ensures var r := ParseText(Printed(t, fmt).value, true, strtod);
            && r.Ok? && Shown(TreeOf(r.value, None)) == Shown(t)
            && Printed(TreeOf(r.value, None), again) == Printed(t, again)
  {
    TextRoundTrip(Shown(t).value, fmt, true, strtod);
    TreeShows(Shown(t).value, None);
  }
}
