/** The text operations normalisation uses: trimming, searching and case folding of ASCII letters. */
module Text {
  import opened Basics

  /** White space in the sense of Unicode, as strings.TrimSpace uses it. */
  predicate IsSpace(c: char) {
    || '\U{0009}' <= c <= '\U{000D}' || c == ' ' || c == '\U{0085}' || c == '\U{00A0}' || c == '\U{1680}'
    || '\U{2000}' <= c <= '\U{200A}' || c == '\U{2028}' || c == '\U{2029}' || c == '\U{202F}'
    || c == '\U{205F}' || c == '\U{3000}'
  }

  function TrimLeft(s: string): string {
    if s != "" && IsSpace(s[0]) then TrimLeft(s[1..]) else s
  }

  function TrimRight(s: string): string {
    if s != "" && IsSpace(s[|s| - 1]) then TrimRight(s[..|s| - 1]) else s
  }

  function TrimSpace(s: string): string {
    TrimRight(TrimLeft(s))
  }

  predicate OccursAt(s: string, sub: string, i: nat) {
    i + |sub| <= |s| && s[i..i + |sub|] == sub
  }

  /** The first occurrence of sub in s. */
  function Index(s: string, sub: string): Option<nat>
    decreases |s|
  {
    if OccursAt(s, sub, 0) then Some(0)
    else if s == "" then None
    else
      match Index(s[1..], sub)
      case None => None
      case Some(i) => Some(i + 1)
  }

  /** Everything before the first ampersand. */
  function UpToAmpersand(s: string): string {
    if s == "" || s[0] == '&' then "" else [s[0]] + UpToAmpersand(s[1..])
  }

  function LowerChar(c: char): char {
    if 'A' <= c <= 'Z' then c - 'A' + 'a' else c
  }

  function UpperChar(c: char): char {
    if 'a' <= c <= 'z' then c - 'a' + 'A' else c
  }

  function ToLower(s: string): (r: string)
    ensures |r| == |s| && forall i :: 0 <= i < |s| ==> r[i] == LowerChar(s[i])
  {
    seq(|s|, i requires 0 <= i < |s| => LowerChar(s[i]))
  }

  function ToUpper(s: string): (r: string)
    ensures |r| == |s| && forall i :: 0 <= i < |s| ==> r[i] == UpperChar(s[i])
  {
    seq(|s|, i requires 0 <= i < |s| => UpperChar(s[i]))
  }

  lemma OccursInTail(s: string, sub: string, j: nat)
    requires s != "" && j > 0
    ensures OccursAt(s, sub, j) <==> OccursAt(s[1..], sub, j - 1)
  {
    if j + |sub| <= |s| {
      assert s[j..j + |sub|] == s[1..][j - 1..j - 1 + |sub|];
    }
  }

  /** Index finds the first occurrence, and fails only when there is none. */
  lemma {:induction false} IndexFinds(s: string, sub: string)
    ensures Index(s, sub).Some? ==> OccursAt(s, sub, Index(s, sub).value)
    ensures forall j: nat | OccursAt(s, sub, j) :: Index(s, sub).Some? && Index(s, sub).value <= j
    decreases |s|
  {
    if !OccursAt(s, sub, 0) && s != "" {
      IndexFinds(s[1..], sub);
      if Index(s[1..], sub).Some? {
        OccursInTail(s, sub, Index(s[1..], sub).value + 1);
      }
      forall j: nat | OccursAt(s, sub, j) ensures Index(s, sub).Some? && Index(s, sub).value <= j {
        assert j != 0;
        OccursInTail(s, sub, j);
      }
    }
  }

  lemma FirstOccurrence(s: string, sub: string, i: nat)
    requires OccursAt(s, sub, i)
    requires forall j: nat | j < i :: !OccursAt(s, sub, j)
    ensures Index(s, sub) == Some(i)
  {
    IndexFinds(s, sub);
  }

  /** Cutting at strings.IndexByte of an ampersand keeps what stands before it. */
  lemma {:induction false} AmpersandCuts(s: string)
    ensures UpToAmpersand(s)
         == if Index(s, "&").Some? && Index(s, "&").value <= |s| then s[..Index(s, "&").value] else s
    ensures Index(s, "&").Some? ==> Index(s, "&").value <= |s|
    decreases |s|
  {
    IndexFinds(s, "&");
    if s != "" {
      AmpersandCuts(s[1..]);
      assert s == [s[0]] + s[1..];
      if s[0] == '&' {
        assert s[0..1] == "&";
        assert OccursAt(s, "&", 0);
      } else {
        assert s[0..1] != "&" by { assert s[0..1][0] == s[0]; }
        if Index(s[1..], "&").Some? {
          var i := Index(s[1..], "&").value;
          assert s[..i + 1] == [s[0]] + s[1..][..i];
        }
      }
    }
  }

  lemma {:induction false} FieldEnds(s: string, post: string)
    requires '&' !in s
    requires post == "" || post[0] == '&'
    ensures UpToAmpersand(s + post) == s
    decreases |s|
  {
    if s == "" {
      assert s + post == post;
    } else {
      assert (s + post)[1..] == s[1..] + post;
      FieldEnds(s[1..], post);
    }
  }

  predicate AllSpace(s: string) {
    forall i :: 0 <= i < |s| ==> IsSpace(s[i])
  }

  /** Text with no white space at either end. */
  predicate Trimmed(s: string) {
    s == "" || (!IsSpace(s[0]) && !IsSpace(s[|s| - 1]))
  }

  lemma {:induction false} TrimRightStops(s: string, right: string)
    requires s == "" || !IsSpace(s[|s| - 1])
    requires AllSpace(right)
    ensures TrimRight(s + right) == s
    decreases |right|
  {
    if right == "" {
      assert s + right == s;
    } else {
      assert (s + right)[..|s + right| - 1] == s + right[..|right| - 1];
      TrimRightStops(s, right[..|right| - 1]);
    }
  }

  /** White space around a value is ignored. */
  lemma {:induction false} TrimSpaceStops(left: string, s: string, right: string)
    requires AllSpace(left) && AllSpace(right) && Trimmed(s)
    ensures TrimSpace(left + s + right) == s
    decreases |left|
  {
    if left != "" {
      assert (left + s + right)[1..] == left[1..] + s + right;
      TrimSpaceStops(left[1..], s, right);
    } else {
      assert left + s + right == s + right;
      if s == "" {
        assert s + right == right;
        OnlySpace(right);
      } else {
        TrimRightStops(s, right);
      }
    }
  }

  lemma {:induction false} OnlySpace(s: string)
    requires AllSpace(s)
    ensures TrimLeft(s) == ""
    decreases |s|
  {
    if s != "" {
      OnlySpace(s[1..]);
    }
  }
}
