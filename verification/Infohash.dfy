/**
 * Normalisation of infohashes: magnets, urns, base32 and hex spellings of one 20-byte digest all
 * become the same forty lowercase hex digits. Text is a sequence of Unicode code points.
 */
module Infohash {
  import opened Basics
  import opened Text
  import opened Radix
  import StoreModel

  // ----- normalisation -----

  /**
   * A bare btih. Thirty-two symbols decode to twenty bytes only when every one is in the alphabet:
   * padding and line breaks, which the decoder tolerates, leave fewer bytes.
   */
  function CanonicalBtih(s: string): Option<string> {
    if |s| == 40 && AllHex(s) then Some(ToLower(s))
    else if |s| == 32 && AllBase32(ToUpper(s)) then Some(HexEncode(Regroup(Base32Values(ToUpper(s)))))
    else None
  }

  const URN_BTIH := "urn:btih:"
  const URN_BTMH := "urn:btmh:"
  const MAGNET := "magnet:"

  /** None is the in-scope skip, ErrSkipInfohash. */
  function Normalize(raw: string): Option<string> {
    var s := TrimSpace(raw);
    if s == "" then None
    else
      match Index(s, URN_BTIH)
      case Some(i) => CanonicalBtih(UpToAmpersand(s[Min(i + |URN_BTIH|, |s|)..]))
      case None =>
        if MAGNET <= s || Index(s, URN_BTMH).Some? then None else CanonicalBtih(s)
  }

  /** The index scan behind the length-40 case. */
  method IsHex40(s: string) returns (ok: bool)
    ensures ok <==> AllHex(s)
  {
    for i := 0 to |s|
      invariant AllHex(s[..i])
    {
      if !IsHexDigit(s[i]) {
        return false;
      }
      assert s[..i + 1] == s[..i] + [s[i]];
    }
    assert s[..|s|] == s;
    return true;
  }

  /** The two lengths that can be a bare btih. */
  method CanonicalKey(s: string) returns (key: Option<string>)
    ensures key == CanonicalBtih(s)
  {
    if |s| == 40 {
      var hex := IsHex40(s);
      if hex {
        return Some(ToLower(s));
      }
    } else if |s| == 32 && AllBase32(ToUpper(s)) {
      return Some(HexEncode(Regroup(Base32Values(ToUpper(s)))));
    }
    return None;
  }

  /** What stands before the first ampersand, if there is one. */
  method FieldOf(s: string) returns (field: string)
    ensures field == UpToAmpersand(s)
  {
    field := s;
    var j := Index(field, "&");
    AmpersandCuts(s);
    if j.Some? {
      field := field[..j.value];
    }
  }

  /** The resliced local string ends as the bare btih, or the value is skipped. */
  method NormalizeInfohash(raw: string) returns (key: Option<string>)
    ensures key == Normalize(raw)
  {
    var s := TrimSpace(raw);
    if s == "" {
      return None;
    }
    var i := Index(s, URN_BTIH);
    if i.Some? {
      IndexFinds(s, URN_BTIH);
      s := s[i.value + |URN_BTIH|..];
      s := FieldOf(s);
    } else if MAGNET <= s || Index(s, URN_BTMH).Some? {
      return None;
    }
    key := CanonicalKey(s);
  }

  lemma LowerOfHex(s: string)
    ensures AllHex(s) <==> forall i :: 0 <= i < |s| ==> StoreModel.IsCanonicalChar(ToLower(s)[i])
  {
    if AllHex(s) {
      forall i | 0 <= i < |s| ensures StoreModel.IsCanonicalChar(ToLower(s)[i]) {
        assert IsHexDigit(s[i]);
      }
    }
    if forall i :: 0 <= i < |s| ==> StoreModel.IsCanonicalChar(ToLower(s)[i]) {
      forall i | 0 <= i < |s| ensures IsHexDigit(s[i]) {
        assert StoreModel.IsCanonicalChar(ToLower(s)[i]);
      }
    }
  }

  // ----- what a key stands for -----

  /** The length of a v1 infohash in bytes: a SHA-1 digest. */
  const DIGEST: nat := 20

  /** s is the hex or base32 spelling of d, in any mixture of cases. */
  predicate Spells(s: string, d: seq<Byte>)
    requires |d| == DIGEST
  {
    ToLower(s) == HexEncode(d) || ToUpper(s) == Base32Encode(d)
  }

  /** A spelling of d normalises to d in lowercase hex. */
  lemma SpellingNormalizes(s: string, d: seq<Byte>)
    requires |d| == DIGEST && Spells(s, d)
    ensures CanonicalBtih(s) == Some(HexEncode(d))
  {
    if ToLower(s) == HexEncode(d) {
      HexEncodeReads(d);
      LowerOfHex(s);
    } else {
      Base32RoundTrip(d);
      assert |s| == 32;
    }
  }

  /** Whatever normalises spells exactly one digest, and its key is that digest in lowercase hex. */
  lemma KeyHasDigest(s: string) returns (d: seq<Byte>)
    requires CanonicalBtih(s).Some?
    ensures |d| == DIGEST && Spells(s, d) && CanonicalBtih(s) == Some(HexEncode(d))
  {
    if |s| == 40 && AllHex(s) {
      LowerOfHex(s);
      d := HexDecode(ToLower(s));
      HexDecodeReads(ToLower(s));
    } else {
      d := Regroup(Base32Values(ToUpper(s)));
      Base32TextRoundTrip(ToUpper(s));
    }
  }

  ghost predicate KeyOfSpelling(s: string, k: string) {
    exists d: seq<Byte> | |d| == DIGEST :: Spells(s, d) && k == HexEncode(d)
  }

  /** A bare value has key k exactly when it spells a digest whose lowercase hex is k. */
  lemma BtihKeyIff(s: string, k: string)
    ensures CanonicalBtih(s) == Some(k) <==> KeyOfSpelling(s, k)
  {
    if CanonicalBtih(s) == Some(k) {
      var d := KeyHasDigest(s);
    }
    if KeyOfSpelling(s, k) {
      var d: seq<Byte> :| |d| == DIGEST && Spells(s, d) && k == HexEncode(d);
      SpellingNormalizes(s, d);
    }
  }

  /** Two spellings share a key exactly when they spell the same twenty bytes. */
  lemma SameKeyIffSameDigest(s: string, d: seq<Byte>, t: string, e: seq<Byte>)
    requires |d| == DIGEST && |e| == DIGEST && Spells(s, d) && Spells(t, e)
    ensures CanonicalBtih(s) == CanonicalBtih(t) <==> d == e
  {
    SpellingNormalizes(s, d);
    SpellingNormalizes(t, e);
    HexEncodeReads(d);
    HexEncodeReads(e);
  }

  /** A spelling holds letters and digits only. */
  predicate Alnum(c: char) {
    'a' <= c <= 'z' || 'A' <= c <= 'Z' || '0' <= c <= '9'
  }

  lemma SpellingIsAlnum(s: string)
    requires CanonicalBtih(s).Some?
    ensures s != "" && Trimmed(s)
    ensures forall i :: 0 <= i < |s| ==> Alnum(s[i])
  {
    forall i | 0 <= i < |s| ensures Alnum(s[i]) {
      if |s| == 40 && AllHex(s) {
        assert IsHexDigit(s[i]);
      } else {
        assert IsBase32Digit(ToUpper(s)[i]);
      }
    }
    assert Alnum(s[0]) && Alnum(s[|s| - 1]);
  }

  /** Text of letters and digits cannot hold a marker with a colon at position c. */
  lemma NoMarker(s: string, marker: string, c: nat)
    requires c < |marker| && marker[c] == ':'
    requires forall i :: 0 <= i < |s| ==> Alnum(s[i])
    ensures Index(s, marker).None? && !(marker <= s)
  {
    IndexFinds(s, marker);
    forall i: nat ensures !OccursAt(s, marker, i) {
      if i + |marker| <= |s| {
        assert s[i..i + |marker|][c] == s[i + c];
      }
    }
  }

  /** The part of a trimmed value that carries the digest: the first btih field, or the whole. */
  function Payload(s: string): string {
    match Index(s, URN_BTIH)
    case None => s
    case Some(i) => UpToAmpersand(s[Min(i + |URN_BTIH|, |s|)..])
  }

  /**
   * Normalisation reads the payload and nothing else: the early skip of magnets and v2 urns turns
   * nothing away that the bare case would have taken.
   */
  lemma NormalizeReadsPayload(raw: string)
    ensures Normalize(raw) == CanonicalBtih(Payload(TrimSpace(raw)))
  {
    var s := TrimSpace(raw);
    if Index(s, URN_BTIH).None? && CanonicalBtih(s).Some? {
      SpellingIsAlnum(s);
      NoMarker(s, MAGNET, 6);
      NoMarker(s, URN_BTMH, 3);
    }
  }

  /** The whole contract: a value has key k exactly when its payload spells the digest k names. */
  lemma NormalizeIff(raw: string, k: string)
    ensures Normalize(raw) == Some(k) <==> KeyOfSpelling(Payload(TrimSpace(raw)), k)
  {
    NormalizeReadsPayload(raw);
    BtihKeyIff(Payload(TrimSpace(raw)), k);
  }

  /** Every key is forty lowercase hex digits. */
  lemma NormalizeIsCanonical(raw: string)
    requires Normalize(raw).Some?
    ensures StoreModel.IsCanonicalInfohash(Normalize(raw).value)
  {
    NormalizeReadsPayload(raw);
    var d := KeyHasDigest(Payload(TrimSpace(raw)));
    HexEncodeReads(d);
  }

  lemma BareSpelling(left: string, s: string, right: string)
    requires CanonicalBtih(s).Some? && AllSpace(left) && AllSpace(right)
    ensures Normalize(left + s + right) == CanonicalBtih(s)
  {
    SpellingIsAlnum(s);
    TrimSpaceStops(left, s, right);
    NoMarker(s, URN_BTIH, 3);
    NormalizeReadsPayload(left + s + right);
  }

  /** The fixed points of normalisation are exactly the canonical keys. */
  lemma NormalizeFixesKeys(k: string)
    ensures Normalize(k) == Some(k) <==> StoreModel.IsCanonicalInfohash(k)
  {
    if StoreModel.IsCanonicalInfohash(k) {
      forall i | 0 <= i < |k| ensures IsHexDigit(k[i]) && ToLower(k)[i] == k[i] {
        assert StoreModel.IsCanonicalChar(k[i]);
      }
      assert ToLower(k) == k;
      BareSpelling("", k, "");
      assert "" + k + "" == k;
    } else if Normalize(k) == Some(k) {
      NormalizeIsCanonical(k);
    }
  }

  /** Normalising a key again changes nothing. */
  lemma NormalizeTwice(raw: string)
    requires Normalize(raw).Some?
    ensures Normalize(Normalize(raw).value) == Normalize(raw)
  {
    NormalizeIsCanonical(raw);
    NormalizeFixesKeys(Normalize(raw).value);
  }

  /** No btih marker starts before position n. */
  ghost predicate FirstMarkerAt(s: string, n: nat) {
    OccursAt(s, URN_BTIH, n) && forall j: nat | j < n :: !OccursAt(s, URN_BTIH, j)
  }

  lemma SuffixAfter(pre: string, marker: string, s: string, post: string)
    ensures (pre + marker + s + post)[|pre| + |marker|..] == s + post
  {
  }

  lemma PayloadOfField(t: string, i: nat, s: string, post: string)
    requires Index(t, URN_BTIH) == Some(i) && i + |URN_BTIH| <= |t| && t[i + |URN_BTIH|..] == s + post
    requires '&' !in s && (post == "" || post[0] == '&')
    ensures Payload(t) == s
  {
    FieldEnds(s, post);
  }

  /**
   * A spelling in the first btih field of a magnet or urn has the key it has on its own, whatever
   * stands before the field (a v2 urn of a hybrid, say) and after it, and around the value.
   */
  lemma EmbeddedSpelling(left: string, pre: string, s: string, post: string, right: string)
    requires CanonicalBtih(s).Some?
    requires post == "" || post[0] == '&'
    requires AllSpace(left) && AllSpace(right) && Trimmed(pre + URN_BTIH + s + post)
    requires FirstMarkerAt(pre + URN_BTIH + s + post, |pre|)
    ensures Normalize(left + (pre + URN_BTIH + s + post) + right) == CanonicalBtih(s)
  {
    var t := pre + URN_BTIH + s + post;
    TrimSpaceStops(left, t, right);
    FirstOccurrence(t, URN_BTIH, |pre|);
    SuffixAfter(pre, URN_BTIH, s, post);
    SpellingIsAlnum(s);
    PayloadOfField(t, |pre|, s, post);
    NormalizeReadsPayload(left + t + right);
  }
}
