/** The shape of canonical refs, namespace:value, that submit and list_releases insist on. */
module Refs {

  predicate IsLower(c: char) { 'a' <= c <= 'z' }

  predicate IsNamespaceChar(c: char) {
    IsLower(c) || '0' <= c <= '9' || c == '_' || c == '-'
  }

  /** The length of the longest prefix of s made of namespace characters. */
  function NamespaceLength(s: string): (n: nat)
    ensures n <= |s|
    ensures forall i :: 0 <= i < n ==> IsNamespaceChar(s[i])
    ensures n < |s| ==> !IsNamespaceChar(s[n])
  {
    if s == "" || !IsNamespaceChar(s[0]) then 0 else 1 + NamespaceLength(s[1..])
  }

  /** A ref matches ^[a-z][a-z0-9_-]*:.+$ where the dot excludes a line feed. */
  predicate ValidRef(s: string) {
    var n := NamespaceLength(s);
    && 0 < n && IsLower(s[0])
    && n + 1 < |s| && s[n] == ':'
    && '\n' !in s[n + 1..]
  }

  ghost predicate Splits(s: string, namespace: string, value: string) {
    && s == namespace + ":" + value
    && namespace != "" && IsLower(namespace[0])
    && (forall i :: 0 <= i < |namespace| ==> IsNamespaceChar(namespace[i]))
    && value != "" && '\n' !in value
  }

  lemma SplitsAtColon(s: string, namespace: string, value: string)
    requires Splits(s, namespace, value)
    ensures NamespaceLength(s) == |namespace| && s[|namespace| + 1..] == value
  {
    assert s[|namespace|] == ':';
    assert forall i :: 0 <= i < |namespace| ==> s[i] == namespace[i];
  }

  /** A ref is accepted exactly when it is some namespace, a colon and some value; the split is unique. */
  lemma ValidRefIffSplits(s: string)
    ensures ValidRef(s) <==> exists namespace, value :: Splits(s, namespace, value)
    ensures forall n1, v1, n2, v2 :: Splits(s, n1, v1) && Splits(s, n2, v2) ==> n1 == n2 && v1 == v2
  {
    if ValidRef(s) {
      var n := NamespaceLength(s);
      assert s == s[..n] + ":" + s[n + 1..];
      assert Splits(s, s[..n], s[n + 1..]);
    }
    forall namespace, value | Splits(s, namespace, value)
      ensures ValidRef(s) && namespace == s[..NamespaceLength(s)] && value == s[NamespaceLength(s) + 1..]
    {
      SplitsAtColon(s, namespace, value);
      assert s[..|namespace|] == namespace;
    }
  }
}
