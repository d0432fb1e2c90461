/** Namespace helpers: ElementTree spells a namespaced tag `{uri}local`; the importer reads the
    `{uri}` prefix off the root element and prepends it to every child tag it looks up. */
module Namespace {

  /** `s.split("}")[0]`: the part of `s` before its first `}`, or all of `s` when it has none. */
  function BeforeBrace(s: string): (r: string)
    ensures |r| <= |s| && r == s[..|r|]
    ensures '}' !in r
    ensures |r| < |s| ==> s[|r|] == '}'
  {
    if |s| == 0 || s[0] == '}' then "" else [s[0]] + BeforeBrace(s[1..])
  }

  /** When the first `}` of `s` is at index n - 1, the part before it is `s[..n - 1]`. */
  lemma {:induction false} BeforeFirstBrace(s: string, n: nat)
    requires 0 < n <= |s| && s[n - 1] == '}'
    requires forall j | 0 <= j < n - 1 :: s[j] != '}'
    ensures BeforeBrace(s) == s[..n - 1]
  {
    if n > 1 {
      BeforeFirstBrace(s[1..], n - 1);
      assert s[..n - 1] == [s[0]] + s[1..][..n - 2];
    }
  }

  /** `get_collada_ns(root)`: the `{...}` prefix of the root tag, or "" when the tag does not
      start with `{`. A tag that opens `{` but never closes it yields the whole tag plus `}`. */
  function GetColladaNs(rootTag: string): (ns: string)
    ensures ns == "" <==> !(|rootTag| > 0 && rootTag[0] == '{')
    ensures ns != "" ==> ns[0] == '{' && ns[|ns| - 1] == '}' && '}' !in ns[..|ns| - 1]
    ensures ns != "" && '}' in rootTag ==> |ns| <= |rootTag| && ns == rootTag[..|ns|]
    ensures ns != "" && '}' !in rootTag ==> ns == rootTag + "}"
  {
    if |rootTag| > 0 && rootTag[0] == '{' then
      var head := BeforeBrace(rootTag);
      assert ('}' in rootTag) == (|head| < |rootTag|) by {
        if |head| == |rootTag| { assert head == rootTag; }
      }
      head + "}"
    else ""
  }

  /** `q(ns, tag)`: the tag qualified with the namespace prefix. */
  function Qualify(ns: string, tag: string): (qualified: string)
    ensures |qualified| == |ns| + |tag|
    ensures qualified[..|ns|] == ns && qualified[|ns|..] == tag
  {
    ns + tag
  }

  /** A namespaced root tag splits into its prefix and its local name, and qualifying the local
      name with the prefix gives the root tag back; the local name holds no further `{`-prefix
      information, since the prefix ends at the tag's first `}`. */
  lemma NamespaceRoundTrip(rootTag: string)
    requires |rootTag| > 0 && rootTag[0] == '{' && '}' in rootTag
    ensures var ns := GetColladaNs(rootTag);
            |ns| <= |rootTag| && Qualify(ns, rootTag[|ns|..]) == rootTag
            && forall i | 0 <= i < |ns| - 1 :: rootTag[i] != '}'
  {
    var head := BeforeBrace(rootTag);
    var ns := head + "}";
    assert ns == rootTag[..|head| + 1];
    assert GetColladaNs(rootTag) == ns;
    assert rootTag[..|ns|] + rootTag[|ns|..] == rootTag;
    forall i | 0 <= i < |ns| - 1 ensures rootTag[i] != '}' {
      assert rootTag[i] == head[i];
    }
  }

  /** Qualifying with the same prefix never merges two different tags. */
  lemma QualifyInjective(ns: string, a: string, b: string)
    requires Qualify(ns, a) == Qualify(ns, b)
    ensures a == b
  {
    assert a == Qualify(ns, a)[|ns|..];
  }
}
