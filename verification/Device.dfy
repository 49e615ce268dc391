/** Anonymizing a value by a salted hash, and the shape of the result (device.go). */
module Device {
  import opened GoStrings
  import Escaper

  type Digest = d: seq<nat> | |d| == 32 && AreBytes(d) witness seq(32, _ => 0)

  predicate AreBytes(d: seq<nat>) {
    forall i | 0 <= i < |d| :: d[i] < 256
  }

  /** SHA-256 of salt followed by value; the model does not say more about it. */
  type Sha256 = (string, string) -> Digest

  const HEX_DIGITS := "0123456789abcdef"

  function HexByte(b: nat): string
    requires b < 256
  {
    [HEX_DIGITS[b / 16], HEX_DIGITS[b % 16]]
  }

  function Hex(d: seq<nat>): string
    requires AreBytes(d)
  {
    if d == [] then "" else HexByte(d[0]) + Hex(d[1..])
  }

  /** Blank values pass through. */
  function Anonymize(sha: Sha256, salt: string, value: string): string {
    if TrimSpace(value) == "" then value else Hex(sha(salt, value)) + "#C"
  }

  predicate IsHexChar(c: char) {
    '0' <= c <= '9' || 'a' <= c <= 'f'
  }

  /** One or more of #C and #S. */
  predicate IsMarkers(s: string) {
    |s| >= 2 && s[0] == '#' && (s[1] == 'S' || s[1] == 'C') && (s[2..] == "" || IsMarkers(s[2..]))
  }

  /** The whole of s matches [0-9a-f]{64}(#[SC])+. */
  predicate IsHash(s: string) {
    |s| > 64 && (forall i | 0 <= i < 64 :: IsHexChar(s[i])) && IsMarkers(s[64..])
  }

  /** The pattern, position by position. */
  lemma HashMeaning(s: string)
    ensures IsHash(s) <==>
            && |s| >= 66 && |s| % 2 == 0
            && (forall i | 0 <= i < 64 :: ('0' <= s[i] <= '9') || ('a' <= s[i] <= 'f'))
            && forall i | 32 <= i < |s| / 2 :: s[2 * i] == '#' && (s[2 * i + 1] == 'C' || s[2 * i + 1] == 'S')
  {
    if |s| > 64 {
      MarkersMeaning(s[64..]);
      hide IsMarkers;
      forall i | 32 <= i < |s| / 2
        ensures s[64..][2 * (i - 32)] == s[2 * i] && s[64..][2 * (i - 32) + 1] == s[2 * i + 1]
      {
      }
      if |s| % 2 == 0 &&
         forall i | 32 <= i < |s| / 2 :: s[2 * i] == '#' && (s[2 * i + 1] == 'C' || s[2 * i + 1] == 'S') {
        forall i | 0 <= i < |s[64..]| / 2 ensures IsMarkerAt(s[64..], i) {
          assert s[2 * (i + 32)] == '#';
        }
      }
      if forall i | 0 <= i < |s[64..]| / 2 :: IsMarkerAt(s[64..], i) {
        forall i | 32 <= i < |s| / 2 ensures s[2 * i] == '#' && (s[2 * i + 1] == 'C' || s[2 * i + 1] == 'S') {
          assert IsMarkerAt(s[64..], i - 32);
        }
      }
    }
  }

  predicate IsMarkerAt(s: string, i: int) {
    0 <= i && 2 * i + 1 < |s| && s[2 * i] == '#' && (s[2 * i + 1] == 'C' || s[2 * i + 1] == 'S')
  }

  lemma {:induction false} MarkersMeaning(s: string)
    ensures IsMarkers(s) <==> |s| >= 2 && |s| % 2 == 0 && forall i | 0 <= i < |s| / 2 :: IsMarkerAt(s, i)
  {
    if |s| >= 2 {
      var rest := s[2..];
      MarkersMeaning(rest);
      forall i | 0 < i < |s| / 2 ensures IsMarkerAt(s, i) <==> IsMarkerAt(rest, i - 1) {
      }
      if |s| % 2 == 0 && forall i | 0 <= i < |s| / 2 :: IsMarkerAt(s, i) {
        assert IsMarkerAt(s, 0);
        forall i | 0 <= i < |rest| / 2 ensures IsMarkerAt(rest, i) {
          assert IsMarkerAt(s, i + 1);
        }
      }
      if IsMarkers(s) {
        forall i | 0 <= i < |s| / 2 ensures IsMarkerAt(s, i) {
          if i > 0 {
            assert IsMarkerAt(rest, i - 1);
          }
        }
      }
    }
  }

  lemma {:induction false} HexChars(d: seq<nat>)
    requires AreBytes(d)
    ensures |Hex(d)| == 2 * |d| && forall i | 0 <= i < |Hex(d)| :: IsHexChar(Hex(d)[i])
  {
    if d != [] {
      HexChars(d[1..]);
      HexDigitsAreHex(d[0] / 16);
      HexDigitsAreHex(d[0] % 16);
    }
  }

  lemma HexDigitsAreHex(n: nat)
    requires n < 16
    ensures IsHexChar(HEX_DIGITS[n])
  {
  }

  /** What a lower-case hexadecimal digit is worth. */
  function HexValue(c: char): int {
    if '0' <= c <= '9' then c as int - '0' as int else 10 + c as int - 'a' as int
  }

  lemma HexByteValue(b: nat)
    requires b < 256
    ensures |HexByte(b)| == 2 && 16 * HexValue(HexByte(b)[0]) + HexValue(HexByte(b)[1]) == b
  {
    HexDigitValue(b / 16);
    HexDigitValue(b % 16);
    hide HexValue, HEX_DIGITS;
  }

  lemma HexDigitValue(n: nat)
    requires n < 16
    ensures HexValue(HEX_DIGITS[n]) == n
  {
  }

  lemma {:induction false} HexAt(d: seq<nat>, i: nat)
    requires AreBytes(d) && i < |d|
    ensures |Hex(d)| == 2 * |d| && Hex(d)[2 * i..2 * i + 2] == HexByte(d[i])
  {
    hide HexByte;
    HexChars(d);
    HexByteValue(d[0]);
    HexChars(d[1..]);
    if i > 0 {
      HexAt(d[1..], i - 1);
      assert Hex(d)[2..] == Hex(d[1..]);
    }
  }

  /** The digits of the result are those of the digest of salt and value, byte by byte; a blank value stays. */
  lemma AnonymizedIsDigest(sha: Sha256, salt: string, value: string, i: nat)
    requires i < 32
    ensures TrimSpace(value) == "" ==> Anonymize(sha, salt, value) == value
    ensures TrimSpace(value) != "" ==>
              var h := Anonymize(sha, salt, value);
              |h| == 66 && 16 * HexValue(h[2 * i]) + HexValue(h[2 * i + 1]) == sha(salt, value)[i] && h[64..] == "#C"
  {
    var d := sha(salt, value);
    HexAt(d, i);
    HexByteValue(d[i]);
    hide Hex, HexByte, HexValue, TrimSpace;
    if TrimSpace(value) != "" {
      var h := Anonymize(sha, salt, value);
      assert h[..64] == Hex(d) && h[64..] == "#C";
      assert h[2 * i] == Hex(d)[2 * i..2 * i + 2][0] && h[2 * i + 1] == Hex(d)[2 * i..2 * i + 2][1];
    }
  }

  /** So different digests give different results. */
  lemma DigestsAreToldApart(sha: Sha256, salt: string, value: string, salt': string, value': string)
    requires TrimSpace(value) != "" && TrimSpace(value') != "" && sha(salt, value) != sha(salt', value')
    ensures Anonymize(sha, salt, value) != Anonymize(sha, salt', value')
  {
    hide Anonymize, HexValue, TrimSpace;
    var d, e := sha(salt, value), sha(salt', value');
    var i :| 0 <= i < 32 && d[i] != e[i];
    AnonymizedIsDigest(sha, salt, value, i);
    AnonymizedIsDigest(sha, salt', value', i);
  }

  /** A value that is not blank is replaced by a hash of the registered pattern, which the value escaper leaves
      alone. */
  lemma AnonymizedIsHash(sha: Sha256, salt: string, value: string)
    requires TrimSpace(value) != ""
    ensures var h := Anonymize(sha, salt, value);
            IsHash(h) && Escaper.EscapeIDOrValue(h) == h && h !in Escaper.VALIDATION_RESULT_TYPES
  {
    var hex := Hex(sha(salt, value));
    var h := hex + "#C";
    HexChars(sha(salt, value));
    hide Hex, HexByte;
    assert h[64..] == "#C" && "#C"[2..] == "";
    Escaper.CleanIsUnchanged(h, "", true);
    assert !Escaper.IsPlainName(h) by {
      assert h[64] == '#';
    }
    if h in Escaper.VALIDATION_RESULT_TYPES {
      Escaper.ResultTypesArePlain(h);
    }
  }
}
