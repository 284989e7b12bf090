/** The textual form of a group-version-kind kept in the original-kind annotation. */
module Gvk {
  import opened Objects

  function ToString(g: GVK): string {
    g.kind + "." + g.group + "/" + g.version
  }

  /** Position of the first occurrence of c, or |s| when there is none. */
  function IndexOf(s: string, c: char): (i: nat)
    ensures i <= |s|
    ensures i < |s| ==> s[i] == c
    ensures forall j | 0 <= j < |s| && s[j] == c :: i <= j
  {
    if s == [] || s[0] == c then 0 else 1 + IndexOf(s[1..], c)
  }

  function Parse(s: string): Option<GVK> {
    var dot := IndexOf(s, '.');
    if dot == |s| then None else
      var rest := s[dot + 1..];
      var slash := IndexOf(rest, '/');
      if slash == |rest| then None else
        Some(GVK(rest[..slash], rest[slash + 1..], s[..dot]))
  }

  /** The first occurrence of a separator lies in or right behind whatever precedes one. */
  lemma FirstIndex(a: string, c: char, b: string)
    ensures IndexOf(a + [c] + b, c) <= |a|
    ensures IndexOf(a + [c] + b, c) == |a| <==> c !in a
  {
    var s := a + [c] + b;
    assert s[|a|] == c;
    assert forall j | 0 <= j < |a| :: s[j] == a[j];
  }

  /** Splitting at the first separator undoes joining exactly when the left part has none. */
  lemma SplitJoined(a: string, c: char, b: string)
    ensures var s := a + [c] + b; var i := IndexOf(s, c);
            i < |s| && (s[..i] == a && s[i + 1..] == b <==> c !in a)
  {
    FirstIndex(a, c, b);
  }

  /** Parsing the printed form gives the value back exactly when the separators are unambiguous. */
  lemma ParsePrinted(g: GVK)
    ensures Parse(ToString(g)) == Some(g) <==> '.' !in g.kind && '/' !in g.group
  {
    var tail := g.group + ['/'] + g.version;
    assert ToString(g) == g.kind + ['.'] + tail;
    FirstIndex(g.kind, '.', tail);
    if '.' !in g.kind {
      assert ToString(g)[..|g.kind|] == g.kind && ToString(g)[|g.kind| + 1..] == tail;
      SplitJoined(g.group, '/', g.version);
    }
  }

  lemma SplitAt(s: string, i: nat)
    requires i < |s|
    ensures s == s[..i] + ([s[i]] + s[i + 1..])
  {
  }

  lemma Associate(kind: string, group: string, version: string)
    ensures ToString(GVK(group, version, kind)) == kind + (['.'] + (group + (['/'] + version)))
  {
  }

  /** Printing a parse gives the string back, and a string fails to parse exactly when it has
      no '.' or no '/' behind its first '.'. */
  lemma PrintParsed(s: string)
    ensures Parse(s).Some? ==> ToString(Parse(s).value) == s
    ensures Parse(s).None? <==> '.' !in s || '/' !in s[IndexOf(s, '.') + 1..]
  {
    var dot := IndexOf(s, '.');
    if dot < |s| {
      var rest := s[dot + 1..];
      SplitAt(s, dot);
      var slash := IndexOf(rest, '/');
      if slash < |rest| {
        SplitAt(rest, slash);
        Associate(s[..dot], rest[..slash], rest[slash + 1..]);
      }
    }
  }
}
