/** The string handling the importers rely on: splitting a line into
    whitespace-separated words, splitting a face token on a separator, and
    reading an unsigned decimal integer. */
module Text {
  import opened Results

  /** Unicode White_Space, the set of characters that Rust's `split_whitespace`
      (and the older `words`) separate tokens on. */
  predicate IsWhitespace(c: char) {
    ('\t' <= c <= '\r') || c == ' ' || c == '\U{85}' || c == '\U{A0}' || c == '\U{1680}'
    || ('\U{2000}' <= c <= '\U{200A}') || c == '\U{2028}' || c == '\U{2029}'
    || c == '\U{202F}' || c == '\U{205F}' || c == '\U{3000}'
  }

  predicate NoWhitespace(s: string) {
    forall i :: 0 <= i < |s| ==> !IsWhitespace(s[i])
  }

  predicate AllWhitespace(s: string) {
    forall i :: 0 <= i < |s| ==> IsWhitespace(s[i])
  }

  /** A token as `split_whitespace` yields it: non-empty, with no whitespace inside. */
  predicate IsWord(s: string) {
    s != [] && NoWhitespace(s)
  }

  // ---------------------------------------------------------------------------
  // Whitespace tokenisation

  /** The maximal runs of non-whitespace characters of `s`, in order. */
  function Words(s: string): (ws: seq<string>)
    ensures forall k :: 0 <= k < |ws| ==> IsWord(ws[k])
  {
    WordsFrom(s, [])
  }

  /** Words of `cur + s`, where `cur` is the part of a word read so far. */
  function WordsFrom(s: string, cur: string): (ws: seq<string>)
    requires NoWhitespace(cur)
    ensures forall k :: 0 <= k < |ws| ==> IsWord(ws[k])
    decreases |s|
  {
    if s == [] then
      (if cur == [] then [] else [cur])
    else if IsWhitespace(s[0]) then
      (if cur == [] then [] else [cur]) + WordsFrom(s[1..], [])
    else
      WordsFrom(s[1..], cur + [s[0]])
  }

  /** A line holds no token exactly when it is blank (empty or only whitespace). */
  lemma {:induction false} WordsEmptyIffBlank(s: string)
    ensures Words(s) == [] <==> AllWhitespace(s)
  {
    WordsFromEmpty(s, []);
  }

  lemma {:induction false} WordsFromEmpty(s: string, cur: string)
    requires NoWhitespace(cur)
    ensures WordsFrom(s, cur) == [] <==> cur == [] && AllWhitespace(s)
    decreases |s|
  {
    if s != [] {
      if IsWhitespace(s[0]) {
        WordsFromEmpty(s[1..], []);
        if cur == [] && AllWhitespace(s[1..]) {
          assert AllWhitespace(s) by {
            forall i | 0 <= i < |s| ensures IsWhitespace(s[i]) {
              if i > 0 { assert s[i] == s[1..][i - 1]; }
            }
          }
        }
        if cur == [] && AllWhitespace(s) {
          assert AllWhitespace(s[1..]) by {
            forall i | 0 <= i < |s| - 1 ensures IsWhitespace(s[1..][i]) {
              assert s[1..][i] == s[i + 1];
            }
          }
        }
      } else {
        assert NoWhitespace(cur + [s[0]]) by {
          forall i | 0 <= i < |cur| + 1 ensures !IsWhitespace((cur + [s[0]])[i]) {
            if i < |cur| { assert (cur + [s[0]])[i] == cur[i]; }
          }
        }
        WordsFromEmpty(s[1..], cur + [s[0]]);
      }
    }
  }

  /** The words separated by single spaces (each followed by one space). */
  function Unwords(ws: seq<string>): string {
    if ws == [] then [] else ws[0] + " " + Unwords(ws[1..])
  }

  /** Reading a word continues the current word up to the next whitespace. */
  lemma {:induction false} WordsFromWord(w: string, rest: string, cur: string)
    requires NoWhitespace(w) && NoWhitespace(cur)
    ensures NoWhitespace(cur + w)
    ensures WordsFrom(w + rest, cur) == WordsFrom(rest, cur + w)
    decreases |w|
  {
    if w == [] {
      assert w + rest == rest;
      assert cur + w == cur;
    } else {
      var c := w[0];
      assert (w + rest)[0] == c;
      assert (w + rest)[1..] == w[1..] + rest;
      assert NoWhitespace(cur + [c]) by {
        forall i | 0 <= i < |cur| + 1 ensures !IsWhitespace((cur + [c])[i]) {
          if i < |cur| { assert (cur + [c])[i] == cur[i]; }
        }
      }
      assert NoWhitespace(w[1..]) by {
        forall i | 0 <= i < |w| - 1 ensures !IsWhitespace(w[1..][i]) {
          assert w[1..][i] == w[i + 1];
        }
      }
      WordsFromWord(w[1..], rest, cur + [c]);
      assert cur + [c] + w[1..] == cur + w;
    }
  }

  /** A single word is its own only token. */
  lemma WordsOfWord(w: string)
    requires IsWord(w)
    ensures Words(w) == [w]
  {
    WordsFromWord(w, [], []);
    assert w + [] == w;
    assert [] + w == w;
  }

  /** Tokenising `cur + a + b`, where `a` ends in whitespace, tokenises the
      two parts separately. */
  lemma {:induction false} WordsFromAppend(a: string, b: string, cur: string)
    requires NoWhitespace(cur) && a != [] && IsWhitespace(a[|a| - 1])
    ensures WordsFrom(a + b, cur) == WordsFrom(a, cur) + Words(b)
    decreases |a|
  {
    var head := if cur == [] then [] else [cur];
    assert (a + b)[0] == a[0];
    assert (a + b)[1..] == a[1..] + b;
    if |a| == 1 {
      assert a[1..] + b == b;
      assert WordsFrom(a, cur) == head + WordsFrom([], []);
    } else if IsWhitespace(a[0]) {
      WordsFromAppend(a[1..], b, []);
    } else {
      assert NoWhitespace(cur + [a[0]]) by {
        forall i | 0 <= i < |cur| + 1 ensures !IsWhitespace((cur + [a[0]])[i]) {
          if i < |cur| { assert (cur + [a[0]])[i] == cur[i]; }
        }
      }
      WordsFromAppend(a[1..], b, cur + [a[0]]);
    }
  }

  /** A line cut just after a whitespace character tokenises as its two
      parts. */
  lemma WordsAppend(a: string, b: string)
    requires a != [] && IsWhitespace(a[|a| - 1])
    ensures Words(a + b) == Words(a) + Words(b)
  {
    WordsFromAppend(a, b, []);
  }

  /** A whitespace character at the end ends the current word and adds no
      token. */
  lemma {:induction false} WordsFromTrailing(a: string, c: char, cur: string)
    requires NoWhitespace(cur) && IsWhitespace(c)
    ensures WordsFrom(a + [c], cur) == WordsFrom(a, cur)
    decreases |a|
  {
    if a == [] {
      assert [] + [c] == [c];
      assert [c][1..] == [];
    } else {
      assert (a + [c])[0] == a[0];
      assert (a + [c])[1..] == a[1..] + [c];
      if IsWhitespace(a[0]) {
        WordsFromTrailing(a[1..], c, []);
      } else {
        assert NoWhitespace(cur + [a[0]]) by {
          forall i | 0 <= i < |cur| + 1 ensures !IsWhitespace((cur + [a[0]])[i]) {
            if i < |cur| { assert (cur + [a[0]])[i] == cur[i]; }
          }
        }
        WordsFromTrailing(a[1..], c, cur + [a[0]]);
      }
    }
  }

  /** Any whitespace character (a space, a tab, `\r`, `\n`, ...) separates the
      tokens before it from those after it. With WordsOfWord and
      WordsEmptyIffBlank, cutting a line at each of its whitespace characters
      gives its tokens as its non-whitespace runs, in order. */
  lemma WordsCut(a: string, c: char, b: string)
    requires IsWhitespace(c)
    ensures Words(a + [c] + b) == Words(a) + Words(b)
  {
    WordsAppend(a + [c], b);
    WordsFromTrailing(a, c, []);
  }

  /** A tab-separated line with a trailing carriage return. */
  lemma TabbedLine()
    ensures Words("v\t1\t2\t3\r") == ["v", "1", "2", "3"]
  {
    assert IsWhitespace('\t') && IsWhitespace('\r');
    WordsOfWord("v");
    WordsOfWord("1");
    WordsOfWord("2");
    WordsOfWord("3");
    WordsCut("3", '\r', "");
    assert Words("") == [];
    assert "3" + ['\r'] + "" == "3\r";
    WordsCut("2", '\t', "3\r");
    assert "2" + ['\t'] + "3\r" == "2\t3\r";
    WordsCut("1", '\t', "2\t3\r");
    assert "1" + ['\t'] + "2\t3\r" == "1\t2\t3\r";
    WordsCut("v", '\t', "1\t2\t3\r");
    assert "v" + ['\t'] + "1\t2\t3\r" == "v\t1\t2\t3\r";
  }

  /** Tokenising is the inverse of joining words with spaces. */
  lemma {:induction false} WordsUnwords(ws: seq<string>)
    requires forall k :: 0 <= k < |ws| ==> IsWord(ws[k])
    ensures Words(Unwords(ws)) == ws
    decreases |ws|
  {
    if ws != [] {
      var w := ws[0];
      var rest := Unwords(ws[1..]);
      assert Unwords(ws) == w + (" " + rest);
      WordsFromWord(w, " " + rest, []);
      assert [] + w == w;
      assert (" " + rest)[1..] == rest;
      WordsUnwords(ws[1..]);
      assert ws == [w] + ws[1..];
    }
  }

  // ---------------------------------------------------------------------------
  // Splitting on a separator

  /** The pieces of `s` between occurrences of `sep`, as Rust's `split(sep)`
      yields them: always at least one piece, empty pieces kept. */
  function Split(s: string, sep: char): (parts: seq<string>)
    ensures |parts| >= 1
    ensures forall k :: 0 <= k < |parts| ==> sep !in parts[k]
  {
    SplitFrom(s, sep, [])
  }

  function SplitFrom(s: string, sep: char, cur: string): (parts: seq<string>)
    requires sep !in cur
    ensures |parts| >= 1
    ensures forall k :: 0 <= k < |parts| ==> sep !in parts[k]
    decreases |s|
  {
    if s == [] then [cur]
    else if s[0] == sep then [cur] + SplitFrom(s[1..], sep, [])
    else SplitFrom(s[1..], sep, cur + [s[0]])
  }

  /** The pieces glued back together with `sep` between neighbours. */
  function Join(parts: seq<string>, sep: char): string
    requires |parts| >= 1
  {
    if |parts| == 1 then parts[0] else parts[0] + [sep] + Join(parts[1..], sep)
  }

  /** Splitting loses nothing: joining the pieces gives back the token. */
  lemma SplitJoin(s: string, sep: char)
    ensures Join(Split(s, sep), sep) == s
  {
    SplitFromJoin(s, sep, []);
    assert [] + s == s;
  }

  lemma {:induction false} SplitFromJoin(s: string, sep: char, cur: string)
    requires sep !in cur
    ensures Join(SplitFrom(s, sep, cur), sep) == cur + s
    decreases |s|
  {
    if s == [] {
      assert cur + s == cur;
    } else if s[0] == sep {
      SplitFromJoin(s[1..], sep, []);
      assert [] + s[1..] == s[1..];
      assert cur + [sep] + s[1..] == cur + s;
    } else {
      SplitFromJoin(s[1..], sep, cur + [s[0]]);
      assert cur + [s[0]] + s[1..] == cur + s;
    }
  }

  // ---------------------------------------------------------------------------
  // Unsigned decimal integers

  predicate IsDigit(c: char) {
    '0' <= c <= '9'
  }

  predicate AllDigits(s: string) {
    forall i :: 0 <= i < |s| ==> IsDigit(s[i])
  }

  function DigitValue(c: char): nat
    requires IsDigit(c)
  {
    (c as int) - ('0' as int)
  }

  /** The number a string of decimal digits denotes (leading zeros allowed). */
  function DigitsValue(s: string): nat
    requires AllDigits(s)
    decreases |s|
  {
    if s == [] then 0 else 10 * DigitsValue(s[..|s| - 1]) + DigitValue(s[|s| - 1])
  }

  /** The largest `usize` on a 64-bit target; `!0` in the source. */
  const USIZE_MAX: nat := 0xFFFF_FFFF_FFFF_FFFF

  /** The value of a non-empty string of decimal digits, read left to right;
      None when the string is empty or holds a non-digit. */
  function ParseDigits(s: string): Option<nat>
    decreases |s|
  {
    if s == [] || !IsDigit(s[|s| - 1]) then None
    else if |s| == 1 then Some(DigitValue(s[0]))
    else match ParseDigits(s[..|s| - 1])
      case None => None
      case Some(v) => Some(10 * v + DigitValue(s[|s| - 1]))
  }

  /** Digit-by-digit parsing agrees with the value of the digit string. */
  lemma {:induction false} ParseDigitsSpec(s: string)
    ensures ParseDigits(s).Some? <==> s != [] && AllDigits(s)
    ensures ParseDigits(s).Some? ==> ParseDigits(s).value == DigitsValue(s)
    decreases |s|
  {
    if s != [] && IsDigit(s[|s| - 1]) && |s| > 1 {
      var front := s[..|s| - 1];
      ParseDigitsSpec(front);
      assert AllDigits(s) <==> AllDigits(front) by {
        assert forall i :: 0 <= i < |front| ==> front[i] == s[i];
      }
    } else if s != [] && IsDigit(s[|s| - 1]) {
      assert s[..0] == [];
    }
  }

  /** The digits `str::parse::<usize>()` reads: the text after an optional leading `+`. */
  function UnsignedDigits(s: string): string {
    if |s| > 0 && s[0] == '+' then s[1..] else s
  }

  /** Rust's `str::parse::<usize>()`: an optional leading `+`, then one or more
      decimal digits whose value fits in 64 bits; anything else is an error. */
  function ParseUsize(s: string): (r: Option<nat>)
    ensures r.Some? ==> r.value <= USIZE_MAX
  {
    match ParseDigits(UnsignedDigits(s))
    case Some(v) => if v <= USIZE_MAX then Some(v) else None
    case None => None
  }

  /** A number is accepted exactly when, after an optional `+`, the text is a
      non-empty run of digits whose value fits in 64 bits; that value is the result. */
  lemma ParseUsizeSpec(s: string)
    ensures ParseUsize(s).Some? <==>
      var d := UnsignedDigits(s); d != [] && AllDigits(d) && DigitsValue(d) <= USIZE_MAX
    ensures ParseUsize(s).Some? ==> ParseUsize(s).value == DigitsValue(UnsignedDigits(s))
    ensures ParseUsize(s).Some? ==> |s| > 0 && forall i :: 0 <= i < |s| ==> IsDigit(s[i]) || (i == 0 && s[i] == '+')
  {
    var d := UnsignedDigits(s);
    ParseDigitsSpec(d);
    if ParseUsize(s).Some? && |s| > 0 && s[0] == '+' {
      assert forall i :: 1 <= i < |s| ==> s[i] == d[i - 1];
    }
  }

  function Digit(d: nat): (c: char)
    requires d < 10
  {
    ('0' as int + d) as char
  }

  /** The shortest decimal spelling of `n`. */
  function ToDecimal(n: nat): (s: string)
    decreases n
  {
    if n < 10 then [Digit(n)] else ToDecimal(n / 10) + [Digit(n % 10)]
  }

  lemma {:induction false} ToDecimalValue(n: nat)
    ensures ToDecimal(n) != [] && AllDigits(ToDecimal(n))
    ensures DigitsValue(ToDecimal(n)) == n
    decreases n
  {
    if n >= 10 {
      ToDecimalValue(n / 10);
      var t := ToDecimal(n / 10);
      var s := t + [Digit(n % 10)];
      assert s[..|s| - 1] == t;
      assert AllDigits(s) by {
        forall i | 0 <= i < |s| ensures IsDigit(s[i]) {
          if i < |t| { assert s[i] == t[i]; }
        }
      }
    }
  }

  /** Reading back a printed number gives the number. */
  lemma DecimalRoundTrip(n: nat)
    requires n <= USIZE_MAX
    ensures ParseUsize(ToDecimal(n)) == Some(n)
  {
    ToDecimalValue(n);
    assert IsDigit(ToDecimal(n)[0]);
    ParseUsizeSpec(ToDecimal(n));
  }
}
