// The validator's patterns as regular expressions: what they are written like, which
// strings they match, and that the identifier and digest predicates are these patterns.

module WorldPlanPatterns {
  import Words
  import opened WorldPlanInput

  // ---- Regular expressions -------------------------------------------------------

  /** A range of characters in a class; a single one is its own range. */
  datatype Range = Range(low: char, high: char)

  /** A class, a class repeated any number of times or exactly n times, one character, and
      one expression behind another. */
  datatype Regex =
    | One(chars: seq<Range>)
    | Many(chars: seq<Range>)
    | Exactly(chars: seq<Range>, n: nat)
    | Literal(c: char)
    | Then(first: Regex, second: Regex)

  predicate InClass(c: char, chars: seq<Range>) { exists r :: r in chars && r.low <= c <= r.high }

  predicate AllIn(s: string, chars: seq<Range>) { forall i :: 0 <= i < |s| ==> InClass(s[i], chars) }

  predicate InLanguage(r: Regex, s: string) {
    match r
    case One(chars) => |s| == 1 && AllIn(s, chars)
    case Many(chars) => AllIn(s, chars)
    case Exactly(chars, n) => |s| == n && AllIn(s, chars)
    case Literal(c) => s == [c]
    case Then(a, b) => exists i :: 0 <= i <= |s| && InLanguage(a, s[..i]) && InLanguage(b, s[i..])
  }

  /** ^r$ without options: the dollar sign also matches in front of a final line feed. */
  predicate IsMatch(r: Regex, s: string) {
    InLanguage(r, s) || (s != [] && s[|s| - 1] == '\n' && InLanguage(r, s[..|s| - 1]))
  }

  predicate StandsAt(s: string, i: nat, part: string) { i + |part| <= |s| && s[i..i + |part|] == part }

  predicate Contains(s: string, part: string) { exists i :: 0 <= i < |s| && StandsAt(s, i, part) }

  /** How an expression is written. */
  function Show(r: Regex): string {
    match r
    case One(chars) => "[" + ShowClass(chars) + "]"
    case Many(chars) => "[" + ShowClass(chars) + "]*"
    case Exactly(chars, n) => "[" + ShowClass(chars) + "]{" + ShowNumber(n) + "}"
    case Literal(c) => [c]
    case Then(a, b) => Show(a) + Show(b)
  }

  function ShowClass(chars: seq<Range>): string {
    if chars == [] then ""
    else
      var r := chars[0];
      (if r.low == r.high then [r.low] else [r.low, '-', r.high]) + ShowClass(chars[1..])
  }

  function ShowNumber(n: nat): string {
    var digit := ['0', '1', '2', '3', '4', '5', '6', '7', '8', '9'][n % 10];
    if n < 10 then [digit] else ShowNumber(n / 10) + [digit]
  }

  // ---- The patterns ---------------------------------------------------------------

  const HEAD: seq<Range> := [Range('a', 'z'), Range('0', '9')]
  const DOTS: seq<Range> := [Range('.', '.'), Range('_', '_'), Range('-', '-')]
  const SLASHES: seq<Range> := [Range('.', '.'), Range('_', '_'), Range('/', '/'), Range('-', '-')]
  const NAME_TAIL: seq<Range> := HEAD + DOTS
  const PATH_TAIL: seq<Range> := HEAD + SLASHES

  const NAME: Regex := Then(One(HEAD), Many(NAME_TAIL))
  const PATH: Regex := Then(One(HEAD), Many(PATH_TAIL))
  const ASSET: Regex := Then(NAME, Then(Literal(':'), PATH))
  const HEX: Regex := Exactly([Range('0', '9'), Range('a', 'f')], 64)

  /** They are the patterns of the source. */
  lemma PatternsAreWrittenSo()
    ensures Show(NAME) == "[a-z0-9][a-z0-9._-]*"
    ensures Show(ASSET) == "[a-z0-9][a-z0-9._-]*:[a-z0-9][a-z0-9._/-]*"
    ensures Show(HEX) == "[0-9a-f]{64}"
  {
    PartsAreWrittenSo();
    ShowThen(One(HEAD), Many(NAME_TAIL));
    ShowThen(One(HEAD), Many(PATH_TAIL));
    ShowThen(Literal(':'), PATH);
    ShowThen(NAME, Then(Literal(':'), PATH));
    hide Show;
  }

  lemma ShowThen(a: Regex, b: Regex)
    ensures Show(Then(a, b)) == Show(a) + Show(b)
  {}

  lemma PartsAreWrittenSo()
    ensures Show(One(HEAD)) == "[a-z0-9]" && Show(Many(NAME_TAIL)) == "[a-z0-9._-]*"
    ensures Show(Many(PATH_TAIL)) == "[a-z0-9._/-]*" && Show(HEX) == "[0-9a-f]{64}" && Show(Literal(':')) == ":"
  {
    ClassesAreWrittenSo();
    NumberIsWrittenSo();
    hide ShowClass, ShowNumber;
  }

  lemma NumberIsWrittenSo()
    ensures ShowNumber(64) == "64"
  {
    assert ShowNumber(6) == "6";
  }

  lemma ClassesAreWrittenSo()
    ensures ShowClass(HEAD) == "a-z0-9" && ShowClass([Range('0', '9'), Range('a', 'f')]) == "0-9a-f"
    ensures ShowClass(NAME_TAIL) == "a-z0-9._-" && ShowClass(PATH_TAIL) == "a-z0-9._/-"
  {
    TwoRanges('a', 'z', '0', '9');
    TwoRanges('0', '9', 'a', 'f');
    ClassAppends(HEAD, DOTS);
    ClassAppends(HEAD, SLASHES);
    SinglesAre();
    SinglesShow("._-");
    SinglesShow("._/-");
    hide ShowClass;
  }

  /** Single characters are written as they are. */
  function SinglesOf(s: string): seq<Range> { if s == "" then [] else [Range(s[0], s[0])] + SinglesOf(s[1..]) }

  lemma SinglesAre()
    ensures SinglesOf("._-") == DOTS && SinglesOf("._/-") == SLASHES
  {
    assert "._-"[1..] == "_-" && "_-"[1..] == "-" && "-"[1..] == "";
    assert "._/-"[1..] == "_/-" && "_/-"[1..] == "/-" && "/-"[1..] == "-";
  }

  lemma {:induction false} SinglesShow(s: string)
    ensures ShowClass(SinglesOf(s)) == s
  {
    if s != "" {
      assert SinglesOf(s)[1..] == SinglesOf(s[1..]);
      SinglesShow(s[1..]);
    }
  }

  lemma TwoRanges(a: char, b: char, c: char, d: char)
    requires a != b && c != d
    ensures ShowClass([Range(a, b), Range(c, d)]) == [a, '-', b, c, '-', d]
  {
    assert [Range(a, b), Range(c, d)][1..] == [Range(c, d)];
    assert ShowClass([Range(c, d)]) == [c, '-', d] + ShowClass([]);
  }

  lemma {:induction false} ClassAppends(a: seq<Range>, b: seq<Range>)
    ensures ShowClass(a + b) == ShowClass(a) + ShowClass(b)
  {
    if a == [] {
      assert a + b == b;
    } else {
      assert (a + b)[1..] == a[1..] + b;
      ClassAppends(a[1..], b);
    }
  }

  // ---- Identifiers -----------------------------------------------------------------

  lemma HeadClass(c: char)
    ensures HeadChar(c) <==> InClass(c, HEAD)
  {
    assert HEAD[0] == Range('a', 'z') && HEAD[1] == Range('0', '9');
    assert Range('a', 'z') in HEAD && Range('0', '9') in HEAD;
  }

  lemma NameClass(c: char)
    ensures NameChar(c) <==> InClass(c, NAME_TAIL)
    ensures NameChar(c) || c == '/' <==> InClass(c, PATH_TAIL)
  {
    HeadClass(c);
    assert Range('.', '.') in NAME_TAIL && Range('_', '_') in NAME_TAIL && Range('-', '-') in NAME_TAIL;
    assert Range('.', '.') in PATH_TAIL && Range('_', '_') in PATH_TAIL && Range('-', '-') in PATH_TAIL;
    assert Range('/', '/') in PATH_TAIL;
    assert forall r :: r in HEAD ==> r in NAME_TAIL && r in PATH_TAIL;
    hide HeadChar;
  }

  lemma TailShape(chars: seq<Range>, s: string)
    ensures InLanguage(Then(One(HEAD), Many(chars)), s) <==> s != [] && InClass(s[0], HEAD) && AllIn(s[1..], chars)
  {
    if i :| 0 <= i <= |s| && InLanguage(One(HEAD), s[..i]) && InLanguage(Many(chars), s[i..]) {
      assert i == 1 && s[..1][0] == s[0];
    }
    if s != [] && InClass(s[0], HEAD) && AllIn(s[1..], chars) {
      assert InLanguage(One(HEAD), s[..1]) && InLanguage(Many(chars), s[1..]);
    }
    hide InClass;
  }

  lemma NameIsShape(s: string)
    ensures NameShape(s) <==> InLanguage(NAME, s)
  {
    TailShape(NAME_TAIL, s);
    if s != [] { HeadClass(s[0]); }
    forall i | 0 <= i < |s| ensures NameChar(s[i]) <==> InClass(s[i], NAME_TAIL) { NameClass(s[i]); }
    hide InClass, HeadChar;
    assert s != [] ==> forall i :: 0 <= i < |s| - 1 ==> s[1..][i] == s[i + 1];
  }

  lemma PathIsShape(s: string)
    ensures PathShape(s) <==> InLanguage(PATH, s)
  {
    TailShape(PATH_TAIL, s);
    if s != [] { HeadClass(s[0]); }
    forall i | 0 <= i < |s| ensures NameChar(s[i]) || s[i] == '/' <==> InClass(s[i], PATH_TAIL) { NameClass(s[i]); }
    hide InClass, HeadChar;
    assert s != [] ==> forall i :: 0 <= i < |s| - 1 ==> s[1..][i] == s[i + 1];
  }

  ghost predicate SplitsAt(a: Regex, b: Regex, s: string, i: nat) {
    i <= |s| && InLanguage(a, s[..i]) && InLanguage(b, s[i..])
  }

  lemma ThenMeans(a: Regex, b: Regex, s: string)
    ensures InLanguage(Then(a, b), s) <==> exists i :: SplitsAt(a, b, s, i)
  {
    if i: nat :| SplitsAt(a, b, s, i) {}
    if i :| 0 <= i <= |s| && InLanguage(a, s[..i]) && InLanguage(b, s[i..]) { assert SplitsAt(a, b, s, i); }
  }

  lemma ColonSplits(s: string, i: nat)
    requires i <= |s|
    ensures InLanguage(Then(Literal(':'), PATH), s[i..]) <==> i < |s| && s[i] == ':' && InLanguage(PATH, s[i + 1..])
  {
    var rest := s[i..];
    ThenMeans(Literal(':'), PATH, rest);
    if i < |s| { assert rest[..1] == [s[i]] && rest[1..] == s[i + 1..]; }
    hide PATH;
    if i < |s| && s[i] == ':' && InLanguage(PATH, s[i + 1..]) { assert SplitsAt(Literal(':'), PATH, rest, 1); }
    if j: nat :| SplitsAt(Literal(':'), PATH, rest, j) { assert rest[..j] == [':'] && j == 1; }
  }

  lemma AssetIsShape(s: string)
    ensures AssetShape(s) <==> InLanguage(ASSET, s)
  {
    hide InLanguage, NameShape, PathShape, NAME, PATH;
    ThenMeans(NAME, Then(Literal(':'), PATH), s);
    forall i | 0 <= i <= |s| ensures NameShape(s[..i]) <==> InLanguage(NAME, s[..i]) { NameIsShape(s[..i]); }
    if AssetShape(s) {
      var i :| 0 <= i < |s| && s[i] == ':' && NameShape(s[..i]) && PathShape(s[i + 1..]);
      PathIsShape(s[i + 1..]);
      ColonSplits(s, i);
      assert SplitsAt(NAME, Then(Literal(':'), PATH), s, i);
    }
    if i: nat :| SplitsAt(NAME, Then(Literal(':'), PATH), s, i) {
      ColonSplits(s, i);
      if i < |s| { PathIsShape(s[i + 1..]); }
    }
  }

  lemma DoubledIsContained(s: string, c: char)
    ensures Doubled(s, c) <==> Contains(s, [c, c])
  {
    if i :| 0 <= i < |s| - 1 && s[i] == c && s[i + 1] == c { assert StandsAt(s, i, [c, c]); }
    if i :| 0 <= i < |s| && StandsAt(s, i, [c, c]) {
      var two := s[i..i + 2];
      assert s[i] == two[0] && s[i + 1] == two[1];
    }
  }

  /** The two identifier predicates are their patterns, with the length bounds and the
      excluded parts. */
  lemma IdentifierMeans(t: Text)
    ensures Identifier(t) <==>
              t.Some? && 1 <= |t.value| <= 128 && IsMatch(NAME, t.value) && !Contains(t.value, "..")
  {
    if t.Some? && t.value != [] {
      var s := t.value;
      DoubledIsContained(s, '.');
      NameIsShape(s);
      NameIsShape(s[..|s| - 1]);
      if s[|s| - 1] == '\n' { NoLineFeed(s); }
    }
    hide NameShape, InLanguage, Doubled, Contains;
  }

  lemma NoLineFeed(s: string)
    requires s != [] && s[|s| - 1] == '\n'
    ensures !NameShape(s) && !AssetShape(s)
  {
    if AssetShape(s) {
      var i :| 0 <= i < |s| && s[i] == ':' && NameShape(s[..i]) && PathShape(s[i + 1..]);
      PathEnds(s[i + 1..]);
    }
  }

  lemma PathEnds(p: string)
    requires PathShape(p)
    ensures p[|p| - 1] != '\n'
  {}

  lemma AssetIdentifierMeans(t: Text)
    ensures AssetIdentifier(t) <==>
              && t.Some? && 1 <= |t.value| <= 192 && IsMatch(ASSET, t.value)
              && !Contains(t.value, "..") && !Contains(t.value, "//") && t.value[|t.value| - 1] != '/'
  {
    if t.Some? && t.value != [] {
      var s := t.value;
      DoubledIsContained(s, '.');
      DoubledIsContained(s, '/');
      AssetIsShape(s);
      AssetIsShape(s[..|s| - 1]);
      if s[|s| - 1] == '\n' { NoLineFeed(s); }
    }
    hide AssetShape, InLanguage, Doubled, Contains;
  }

  // ---- Digests -----------------------------------------------------------------------

  const DIGITS: string := "0123456789abcdef"

  /** Bytes in lower-case hexadecimal, the high half of each first. */
  function HexLower(b: seq<Words.byte>): (s: string)
    ensures |s| == 2 * |b|
  {
    if b == [] then ""
    else HexLower(b[..|b| - 1]) + [DIGITS[b[|b| - 1] / 16], DIGITS[b[|b| - 1] % 16]]
  }

  predicate HexChar(c: char) { '0' <= c <= '9' || 'a' <= c <= 'f' }

  lemma DigitIsHex(n: nat)
    requires n < 16
    ensures HexChar(DIGITS[n])
  {}

  lemma HexIsDigit(c: char) returns (n: nat)
    requires HexChar(c)
    ensures n < 16 && DIGITS[n] == c
  {
    n := if c <= '9' then c as int - '0' as int else 10 + c as int - 'a' as int;
    if c <= '9' { DigitAt(n); } else { LetterAt(n - 10); }
  }

  lemma DigitAt(n: nat)
    requires n < 10
    ensures DIGITS[n] as int == '0' as int + n
  {
    assert n == 0 || n == 1 || n == 2 || n == 3 || n == 4 || n == 5 || n == 6 || n == 7 || n == 8 || n == 9;
  }

  lemma LetterAt(n: nat)
    requires n < 6
    ensures DIGITS[10 + n] as int == 'a' as int + n
  {
    assert n == 0 || n == 1 || n == 2 || n == 3 || n == 4 || n == 5;
  }

  lemma {:induction false} HexOfBytes(b: seq<Words.byte>, i: nat)
    requires i < 2 * |b|
    ensures HexChar(HexLower(b)[i])
  {
    if i < 2 * |b| - 2 {
      HexOfBytes(b[..|b| - 1], i);
    } else {
      DigitIsHex(b[|b| - 1] / 16);
      DigitIsHex(b[|b| - 1] % 16);
    }
    hide HexChar;
  }

  lemma {:induction false} BytesOfHex(s: string, n: nat) returns (b: seq<Words.byte>)
    requires |s| == 2 * n && forall i :: 0 <= i < |s| ==> HexChar(s[i])
    ensures |b| == n && HexLower(b) == s
  {
    if n == 0 {
      b := [];
    } else {
      var init := BytesOfHex(s[..2 * n - 2], n - 1);
      var high := HexIsDigit(s[2 * n - 2]);
      var low := HexIsDigit(s[2 * n - 1]);
      var last: Words.byte := 16 * high + low;
      b := init + [last];
      assert b[..n - 1] == init && last / 16 == high && last % 16 == low;
      hide HexChar;
      assert s == s[..2 * n - 2] + [s[2 * n - 2], s[2 * n - 1]];
    }
  }

  /** A digest is the lower-case hexadecimal of 32 bytes, and nothing else. */
  lemma DigestMeans(s: string)
    ensures Digest(s) <==> exists b: seq<Words.byte> :: |b| == 32 && s == HexLower(b)
    ensures Digest(s) <==> IsMatch(HEX, s) && |s| == 64
  {
    if Digest(s) {
      assert forall i :: 0 <= i < |s| ==> HexChar(s[i]);
      var b := BytesOfHex(s, 32);
    }
    if b: seq<Words.byte> :| |b| == 32 && s == HexLower(b) {
      forall i | 0 <= i < 64 ensures HexChar(s[i]) { HexOfBytes(b, i); }
    }
    var chars := [Range('0', '9'), Range('a', 'f')];
    assert chars[0] in chars && chars[1] in chars;
    forall c ensures HexChar(c) <==> InClass(c, chars) {}
    hide HexLower, InClass;
    assert Digest(s) <==> |s| == 64 && forall i :: 0 <= i < 64 ==> HexChar(s[i]);
  }
}
