/**
 The secret-store keys of a profile field. Percent-encoding leaves '.' alone, so the separator is not unambiguous:
 two fields share a key exactly when their dotted names are the same string.
 */
module SecretKeys {
  import opened Utf8

  datatype Field = Field(profile: string, name: string)

  const CANONICAL_PREFIX := "apiHero.auth.profile."
  const LEGACY_PREFIX := "apiRunner.auth.profile."
  const HEX_DIGITS := "0123456789ABCDEF"

  predicate Unreserved(c: char) {
    'A' <= c <= 'Z' || 'a' <= c <= 'z' || '0' <= c <= '9' || c in "-_.!~*'()"
  }

  function Percent(b: byte): string {
    ['%', HEX_DIGITS[b / 16], HEX_DIGITS[b % 16]]
  }

  function PercentAll(bytes: seq<byte>): (r: string)
    ensures |r| == 3 * |bytes|
  {
    if bytes == [] then "" else Percent(bytes[0]) + PercentAll(bytes[1..])
  }

  function EncodeChar(c: char): (r: string)
    ensures r != ""
  {
    if Unreserved(c) then [c] else PercentAll(EncodeUtf8(c))
  }

  /** encodeURIComponent. */
  function Encode(s: string): string {
    if s == "" then "" else EncodeChar(s[0]) + Encode(s[1..])
  }

  function Dotted(f: Field): string {
    f.profile + "." + f.name
  }

  function CanonicalKey(f: Field): string {
    CANONICAL_PREFIX + Encode(f.profile) + "." + Encode(f.name)
  }

  function LegacyKey(f: Field): string {
    LEGACY_PREFIX + Encode(f.profile) + "." + Encode(f.name)
  }

  // ---- Percent-encoding can be read back ----

  lemma {:induction false} PercentIsInjective(a: byte, b: byte)
    requires Percent(a) == Percent(b)
    ensures a == b
  {
    assert Percent(a)[1] == Percent(b)[1] && Percent(a)[2] == Percent(b)[2];
    assert forall i, j :: 0 <= i < 16 && 0 <= j < 16 && HEX_DIGITS[i] == HEX_DIGITS[j] ==> i == j;
    assert a / 16 == b / 16 && a % 16 == b % 16;
  }

  lemma {:induction false} PercentAllIsInjective(a: seq<byte>, b: seq<byte>, x: string, y: string)
    requires |a| == |b| && PercentAll(a) + x == PercentAll(b) + y
    ensures a == b && x == y
    decreases |a|
  {
    if a == [] {
      assert PercentAll(a) + x == x && PercentAll(b) + y == y;
    } else {
      var s, t := PercentAll(a) + x, PercentAll(b) + y;
      assert s[..3] == Percent(a[0]) && t[..3] == Percent(b[0]);
      PercentIsInjective(a[0], b[0]);
      assert s[3..] == PercentAll(a[1..]) + x && t[3..] == PercentAll(b[1..]) + y;
      PercentAllIsInjective(a[1..], b[1..], x, y);
    }
  }

  /** No encoding of one character begins another's. */
  lemma {:induction false} EncodeCharIsPrefixFree(c: char, d: char, x: string, y: string)
    requires EncodeChar(c) + x == EncodeChar(d) + y
    ensures c == d && x == y
  {
    var s, t := EncodeChar(c) + x, EncodeChar(d) + y;
    assert s[0] == EncodeChar(c)[0] && t[0] == EncodeChar(d)[0];
    if Unreserved(c) || Unreserved(d) {
      assert s[1..] == t[1..];
      assert Unreserved(c) ==> s[1..] == x;
      assert Unreserved(d) ==> t[1..] == y;
    } else {
      var u, v := EncodeUtf8(c), EncodeUtf8(d);
      assert s[..3] == Percent(u[0]) && t[..3] == Percent(v[0]);
      PercentIsInjective(u[0], v[0]);
      FirstByteGivesLength(c, d);
      PercentAllIsInjective(u, v, x, y);
      Utf8IsInjective(c, d);
    }
  }

  lemma {:induction false} EncodeIsInjective(a: string, b: string)
    requires Encode(a) == Encode(b)
    ensures a == b
    decreases |a|
  {
    if a != "" && b != "" {
      EncodeCharIsPrefixFree(a[0], b[0], Encode(a[1..]), Encode(b[1..]));
      EncodeIsInjective(a[1..], b[1..]);
      assert a == [a[0]] + a[1..] && b == [b[0]] + b[1..];
    }
  }

  lemma {:induction false} EncodeOfConcat(a: string, b: string)
    ensures Encode(a + b) == Encode(a) + Encode(b)
    decreases |a|
  {
    if a == "" {
      assert a + b == b;
    } else {
      assert (a + b)[1..] == a[1..] + b;
      EncodeOfConcat(a[1..], b);
    }
  }

  lemma KeyIsEncodedDottedName(f: Field)
    ensures Encode(Dotted(f)) == Encode(f.profile) + "." + Encode(f.name)
  {
    EncodeOfConcat(f.profile + ".", f.name);
    EncodeOfConcat(f.profile, ".");
    assert "."[1..] == "";
    assert Encode(".") == ".";
  }

  // ---- What the keys separate ----

  lemma PrefixCancels(prefix: string, x: string, y: string)
    ensures prefix + x == prefix + y <==> x == y
  {
    assert (prefix + x)[|prefix|..] == x && (prefix + y)[|prefix|..] == y;
  }

  /** Two fields share a secret exactly when their dotted names coincide. */
  lemma {:induction false} KeysCollideIff(f: Field, g: Field)
    ensures CanonicalKey(f) == CanonicalKey(g) <==> Dotted(f) == Dotted(g)
    ensures LegacyKey(f) == LegacyKey(g) <==> Dotted(f) == Dotted(g)
  {
    var x, y := Encode(Dotted(f)), Encode(Dotted(g));
    assert x == y <==> Dotted(f) == Dotted(g) by {
      if x == y {
        EncodeIsInjective(Dotted(f), Dotted(g));
      }
    }
    KeyIsPrefixed(f);
    KeyIsPrefixed(g);
    PrefixCancels(CANONICAL_PREFIX, x, y);
    PrefixCancels(LEGACY_PREFIX, x, y);
  }

  lemma KeyIsPrefixed(f: Field)
    ensures CanonicalKey(f) == CANONICAL_PREFIX + Encode(Dotted(f))
    ensures LegacyKey(f) == LEGACY_PREFIX + Encode(Dotted(f))
  {
    KeyIsEncodedDottedName(f);
    Regroup(CANONICAL_PREFIX, Encode(f.profile), Encode(f.name));
    Regroup(LEGACY_PREFIX, Encode(f.profile), Encode(f.name));
  }

  lemma Regroup(prefix: string, x: string, y: string)
    ensures prefix + x + "." + y == prefix + (x + "." + y)
  {
  }

  /** Field names without a dot, such as every built-in provider's, keep their keys apart. */
  lemma {:induction false} DotFreeNamesSeparate(f: Field, g: Field)
    requires '.' !in f.name && '.' !in g.name
    ensures CanonicalKey(f) == CanonicalKey(g) <==> f == g
    ensures LegacyKey(f) == LegacyKey(g) <==> f == g
  {
    KeysCollideIff(f, g);
    if |f.profile| < |g.profile| {
      LongerProfileDiffers(f, g);
    } else if |g.profile| < |f.profile| {
      LongerProfileDiffers(g, f);
    } else {
      PrefixCancels(f.profile + ".", f.name, g.name);
      assert Dotted(f)[..|f.profile|] == f.profile && Dotted(g)[..|f.profile|] == g.profile;
    }
  }

  /** The last dot stands before the name. */
  lemma LongerProfileDiffers(f: Field, g: Field)
    requires '.' !in f.name && |f.profile| < |g.profile|
    ensures Dotted(f) != Dotted(g)
  {
    var k := |g.profile|;
    assert Dotted(g)[k] == '.';
    assert k < |Dotted(f)| ==> Dotted(f)[k] == f.name[k - |f.profile| - 1];
  }

  lemma CanonicalIsNotLegacy(f: Field, g: Field)
    ensures CanonicalKey(f) != LegacyKey(g)
  {
    assert CanonicalKey(f)[3] == 'H' && LegacyKey(g)[3] == 'R';
  }

  // ---- The keys in full ----

  /** The letters, digits and marks that stand for themselves, by code point. */
  predicate Plain(c: char) {
    || 65 <= c as int <= 90 || 97 <= c as int <= 122 || 48 <= c as int <= 57
    || c in {'-', '_', '.', '!', '~', '*', '\'', '(', ')'}
  }

  lemma UnreservedIff(c: char)
    ensures Unreserved(c) <==> Plain(c)
  {
    var marks := "-_.!~*'()";
    assert marks[0] == '-' && marks[1] == '_' && marks[2] == '.' && marks[3] == '!' && marks[4] == '~';
    assert marks[5] == '*' && marks[6] == '\'' && marks[7] == '(' && marks[8] == ')';
  }

  predicate IsHexDigit(h: char, n: nat) {
    if n < 10 then h as int == '0' as int + n else n < 16 && h as int == 'A' as int + (n - 10)
  }

  /** Any other character is the bytes of its UTF-8, each a percent sign and two hexadecimal digits. */
  lemma {:induction false} EncodesBytes(bytes: seq<byte>, i: nat)
    requires i < |bytes|
    ensures var r := PercentAll(bytes);
      r[3 * i] == '%' && IsHexDigit(r[3 * i + 1], bytes[i] / 16) && IsHexDigit(r[3 * i + 2], bytes[i] % 16)
  {
    assert forall n :: 0 <= n < 16 ==> IsHexDigit(HEX_DIGITS[n], n);
    if i > 0 {
      EncodesBytes(bytes[1..], i - 1);
      assert PercentAll(bytes)[3..] == PercentAll(bytes[1..]);
    }
  }

  /** What one character is encoded as. */
  lemma EncodesCharacter(c: char)
    ensures Plain(c) ==> EncodeChar(c) == [c]
    ensures !Plain(c) ==> |EncodeChar(c)| == 3 * |EncodeUtf8(c)| && forall i :: 0 <= i < |EncodeUtf8(c)| ==>
      && EncodeChar(c)[3 * i] == '%'
      && IsHexDigit(EncodeChar(c)[3 * i + 1], EncodeUtf8(c)[i] / 16)
      && IsHexDigit(EncodeChar(c)[3 * i + 2], EncodeUtf8(c)[i] % 16)
  {
    UnreservedIff(c);
    if !Plain(c) {
      forall i | 0 <= i < |EncodeUtf8(c)|
        ensures EncodeChar(c)[3 * i] == '%'
        ensures IsHexDigit(EncodeChar(c)[3 * i + 1], EncodeUtf8(c)[i] / 16)
        ensures IsHexDigit(EncodeChar(c)[3 * i + 2], EncodeUtf8(c)[i] % 16)
      {
        EncodesBytes(EncodeUtf8(c), i);
      }
    }
  }

  /** Text is encoded a character at a time. */
  lemma {:induction false} EncodesInOrder(a: string, c: char, b: string)
    ensures Encode(a + ([c] + b)) == Encode(a) + (EncodeChar(c) + Encode(b))
  {
    EncodeOfConcat(a, [c] + b);
    assert ([c] + b)[1..] == b;
  }

  /** The two keys of a field. */
  lemma KeysInFull(f: Field)
    ensures CanonicalKey(f) == "apiHero.auth.profile." + Encode(f.profile) + "." + Encode(f.name)
    ensures LegacyKey(f) == "apiRunner.auth.profile." + Encode(f.profile) + "." + Encode(f.name)
  {
  }
}
