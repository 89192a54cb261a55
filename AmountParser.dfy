/** Extraction of the spending amount from a chat message.

    The bot splits the message text on whitespace (Python's `str.split()`
    with no separator), takes the integer value of the first word made only
    of digits, and reports nothing when there is no such word.
    Digits are the ASCII digits '0'..'9'.
 */
module AmountParser {

  datatype Option<T> = None | Some(value: T)

  /** The characters Python's `str.split()` treats as whitespace. */
  predicate IsSpace(c: char) {
    ('\t' <= c <= '\r') || ('\U{1C}' <= c <= '\U{1F}') || c == ' '
    || c == '\U{85}' || c == '\U{A0}' || c == '\U{1680}'
    || ('\U{2000}' <= c <= '\U{200A}') || c == '\U{2028}' || c == '\U{2029}'
    || c == '\U{202F}' || c == '\U{205F}' || c == '\U{3000}'
  }

  predicate IsDigit(c: char) {
    '0' <= c <= '9'
  }

  predicate AllSpace(s: string) {
    forall i :: 0 <= i < |s| ==> IsSpace(s[i])
  }

  /** A word as `str.split()` yields it: non-empty, no whitespace inside. */
  predicate IsWord(w: string) {
    |w| > 0 && forall i :: 0 <= i < |w| ==> !IsSpace(w[i])
  }

  /** `word.isdigit()`, restricted to ASCII digits: non-empty, digits only. */
  predicate IsDigits(w: string) {
    |w| > 0 && forall i :: 0 <= i < |w| ==> IsDigit(w[i])
  }

  predicate NoDigitWord(words: seq<string>) {
    forall i :: 0 <= i < |words| ==> !IsDigits(words[i])
  }

  /** The words of `cur` (the word being scanned, possibly empty) alone. */
  function Flush(cur: string): (r: seq<string>)
    ensures |r| <= 1 && (r == [] <==> cur == [])
  {
    if cur == [] then [] else [cur]
  }

  /** The scan behind `str.split()`: `cur` holds the characters of the word
      read so far; whitespace ends it, the end of text ends it. */
  function SplitFrom(cur: string, s: string): seq<string>
    decreases |s|
  {
    if s == [] then Flush(cur)
    else if IsSpace(s[0]) then Flush(cur) + SplitFrom([], s[1..])
    else SplitFrom(cur + [s[0]], s[1..])
  }

  /** `text.split()`: the maximal runs of non-whitespace characters, in order. */
  function SplitWords(s: string): seq<string> {
    SplitFrom([], s)
  }

  /** The value of one ASCII digit. */
  function DigitValue(c: char): (d: nat)
    requires IsDigit(c)
    ensures d < 10
    ensures d == 0 <==> c == '0'
  {
    c as int - '0' as int
  }

  /** `int(word)` for a word of ASCII digits (leading zeros allowed). */
  function DecimalValue(w: string): nat
    requires IsDigits(w)
    decreases |w|
  {
    if |w| == 1 then DigitValue(w[0])
    else 10 * DecimalValue(w[..|w| - 1]) + DigitValue(w[|w| - 1])
  }

  /** `next((int(word) for word in words if word.isdigit()), None)`. */
  function FirstDigitWord(words: seq<string>): (r: Option<nat>)
    ensures r.None? <==> NoDigitWord(words)
  {
    if words == [] then None
    else if IsDigits(words[0]) then Some(DecimalValue(words[0]))
    else
      var r := FirstDigitWord(words[1..]);
      assert NoDigitWord(words[1..]) ==> NoDigitWord(words) by {
        if NoDigitWord(words[1..]) {
          forall i | 0 <= i < |words| ensures !IsDigits(words[i]) {
            if i > 0 { assert words[i] == words[1..][i - 1]; }
          }
        }
      }
      r
  }

  /** The amount a message states, before the truthiness test on it. */
  function ParseAmount(text: string): Option<nat> {
    FirstDigitWord(SplitWords(text))
  }

  // ---------------------------------------------------------------------
  // Splitting on whitespace

  lemma {:induction false} SplitFromWords(cur: string, s: string)
    requires forall i :: 0 <= i < |cur| ==> !IsSpace(cur[i])
    ensures forall i :: 0 <= i < |SplitFrom(cur, s)| ==> IsWord(SplitFrom(cur, s)[i])
    decreases |s|
  {
    if s != [] {
      if IsSpace(s[0]) {
        SplitFromWords([], s[1..]);
      } else {
        var cur' := cur + [s[0]];
        assert forall i :: 0 <= i < |cur'| ==> !IsSpace(cur'[i]) by {
          forall i | 0 <= i < |cur'| ensures !IsSpace(cur'[i]) {
            if i < |cur| { assert cur'[i] == cur[i]; }
          }
        }
        SplitFromWords(cur', s[1..]);
      }
    }
  }

  /** Every word `str.split()` yields is non-empty and free of whitespace. */
  lemma SplitWordsAreWords(s: string)
    ensures forall i :: 0 <= i < |SplitWords(s)| ==> IsWord(SplitWords(s)[i])
  {
    SplitFromWords([], s);
  }

  lemma {:induction false} SplitFromAllSpace(s: string)
    requires AllSpace(s)
    ensures SplitFrom([], s) == []
    decreases |s|
  {
    if s != [] {
      SplitFromAllSpace(s[1..]);
    }
  }

  /** A text of whitespace only has no words. */
  lemma SplitAllSpace(s: string)
    requires AllSpace(s)
    ensures SplitWords(s) == []
  {
    SplitFromAllSpace(s);
  }

  lemma {:induction false} SplitFromWord(cur: string, w: string)
    requires forall i :: 0 <= i < |w| ==> !IsSpace(w[i])
    requires cur + w != []
    ensures SplitFrom(cur, w) == [cur + w]
    decreases |w|
  {
    if w == [] {
      assert cur + w == cur;
    } else {
      assert cur + [w[0]] + w[1..] == cur + w;
      SplitFromWord(cur + [w[0]], w[1..]);
    }
  }

  /** A single word splits to itself. */
  lemma SplitSingleWord(w: string)
    requires IsWord(w)
    ensures SplitWords(w) == [w]
  {
    SplitFromWord([], w);
    assert [] + w == w;
  }

  lemma {:induction false} SplitFromAtSpace(cur: string, a: string, c: char, b: string)
    requires IsSpace(c)
    ensures SplitFrom(cur, a + [c] + b) == SplitFrom(cur, a) + SplitFrom([], b)
    decreases |a|
  {
    var s := a + [c] + b;
    if a == [] {
      assert s == [c] + b && s[1..] == b;
    } else {
      assert s[0] == a[0] && s[1..] == a[1..] + [c] + b;
      SplitFromAtSpace(if IsSpace(a[0]) then [] else cur + [a[0]], a[1..], c, b);
    }
  }

  /** Splitting at one whitespace character splits the words in two:
      with the two lemmas above this determines `SplitWords` on every text. */
  lemma SplitAtSpace(a: string, c: char, b: string)
    requires IsSpace(c)
    ensures SplitWords(a + [c] + b) == SplitWords(a) + SplitWords(b)
  {
    SplitFromAtSpace([], a, c, b);
  }

  // ---------------------------------------------------------------------
  // Decimal values

  /** A digit word has value 0 exactly when every digit is '0' ("0", "000"). */
  lemma {:induction false} ValueZeroIff(w: string)
    requires IsDigits(w)
    ensures DecimalValue(w) == 0 <==> forall i :: 0 <= i < |w| ==> w[i] == '0'
    decreases |w|
  {
    if |w| > 1 {
      var p := w[..|w| - 1];
      ValueZeroIff(p);
      if forall i :: 0 <= i < |w| ==> w[i] == '0' {
        assert forall i :: 0 <= i < |p| ==> p[i] == '0';
      } else if DecimalValue(w) == 0 {
        forall i | 0 <= i < |w| ensures w[i] == '0' {
          if i < |w| - 1 { assert w[i] == p[i]; }
        }
      }
    }
  }

  /** Leading zeros do not change the value: `int("007") == 7`. */
  lemma {:induction false} LeadingZeros(z: string, w: string)
    requires forall i :: 0 <= i < |z| ==> z[i] == '0'
    requires IsDigits(w)
    ensures IsDigits(z + w) && DecimalValue(z + w) == DecimalValue(w)
    decreases |w|
  {
    var s := z + w;
    assert IsDigits(s) by {
      forall i | 0 <= i < |s| ensures IsDigit(s[i]) {
        if i < |z| { assert s[i] == z[i]; } else { assert s[i] == w[i - |z|]; }
      }
    }
    if |w| == 1 {
      if |z| > 0 {
        assert s[..|s| - 1] == z;
        ValueZeroIff(z);
      }
    } else {
      assert s[..|s| - 1] == z + w[..|w| - 1];
      LeadingZeros(z, w[..|w| - 1]);
    }
  }

  function Pow10(k: nat): (p: nat)
    ensures p > 0
  {
    if k == 0 then 1 else 10 * Pow10(k - 1)
  }

  /** Positional value: the digits of `u` count `Pow10(|v|)` times their own
      value when followed by `v`. */
  lemma {:induction false} DecimalConcat(u: string, v: string)
    requires IsDigits(u) && IsDigits(v)
    ensures IsDigits(u + v)
    ensures DecimalValue(u + v) == DecimalValue(u) * Pow10(|v|) + DecimalValue(v)
    decreases |v|
  {
    var s := u + v;
    assert IsDigits(s) by {
      forall i | 0 <= i < |s| ensures IsDigit(s[i]) {
        if i < |u| { assert s[i] == u[i]; } else { assert s[i] == v[i - |u|]; }
      }
    }
    assert s[|s| - 1] == v[|v| - 1];
    if |v| == 1 {
      assert s[..|s| - 1] == u;
    } else {
      var v' := v[..|v| - 1];
      assert s[..|s| - 1] == u + v';
      DecimalConcat(u, v');
      var d := DigitValue(v[|v| - 1]);
      assert DecimalValue(v) == 10 * DecimalValue(v') + d;
      assert Pow10(|v|) == 10 * Pow10(|v'|);
      ShiftDigit(DecimalValue(u), Pow10(|v'|), DecimalValue(v'), d);
    }
  }

  lemma ShiftDigit(a: nat, p: nat, x: nat, d: nat)
    ensures 10 * (a * p + x) + d == a * (10 * p) + (10 * x + d)
  {
  }

  /** The ASCII digit of a value below 10. */
  function DigitChar(d: nat): (c: char)
    requires d < 10
    ensures IsDigit(c) && DigitValue(c) == d
  {
    ('0' as int + d) as char
  }

  /** `str(n)`: the decimal rendering of `n`, without leading zeros. */
  function DecimalString(n: nat): (s: string)
    ensures IsDigits(s)
    ensures s[0] == '0' ==> n == 0
  {
    if n < 10 then [DigitChar(n)]
    else
      var s := DecimalString(n / 10) + [DigitChar(n % 10)];
      assert s[0] == DecimalString(n / 10)[0];
      s
  }

  /** `int(str(n)) == n`: reading back the rendering of any `n` gives `n`. */
  lemma {:induction false} DecimalRoundTrip(n: nat)
    ensures DecimalValue(DecimalString(n)) == n
  {
    if n >= 10 {
      var s := DecimalString(n);
      assert s[..|s| - 1] == DecimalString(n / 10);
      DecimalRoundTrip(n / 10);
    }
  }

  // ---------------------------------------------------------------------
  // The first digit word

  /** The amount is the value of the first digit word; later words are ignored. */
  lemma {:induction false} FirstDigitPrefix(pre: seq<string>, w: string, post: seq<string>)
    requires NoDigitWord(pre)
    requires IsDigits(w)
    ensures FirstDigitWord(pre + [w] + post) == Some(DecimalValue(w))
    decreases |pre|
  {
    var ws := pre + [w] + post;
    if pre == [] {
      assert ws[0] == w;
    } else {
      assert ws[0] == pre[0];
      assert ws[1..] == pre[1..] + [w] + post;
      FirstDigitPrefix(pre[1..], w, post);
    }
  }

  /** A word with any non-digit character ("-500", "15.000", "Rp15000", "12k")
      is never the amount: removing it changes nothing. */
  lemma {:induction false} NonDigitWordSkipped(pre: seq<string>, w: string, post: seq<string>)
    requires !IsDigits(w)
    ensures FirstDigitWord(pre + [w] + post) == FirstDigitWord(pre + post)
    decreases |pre|
  {
    var ws := pre + [w] + post;
    if pre == [] {
      assert ws[1..] == post;
      assert pre + post == post;
    } else {
      assert ws[0] == pre[0] && (pre + post)[0] == pre[0];
      assert ws[1..] == pre[1..] + [w] + post;
      assert (pre + post)[1..] == pre[1..] + post;
      NonDigitWordSkipped(pre[1..], w, post);
    }
  }

  // ---------------------------------------------------------------------
  // Whole messages

  /** `pre` is empty or ends in whitespace: a word may start right after it. */
  predicate EndsAtBoundary(pre: string) {
    pre == [] || IsSpace(pre[|pre| - 1])
  }

  /** `post` is empty or starts with whitespace: a word may end right before it. */
  predicate StartsAtBoundary(post: string) {
    post == [] || IsSpace(post[0])
  }

  /** The words of a text that ends in whitespace are not joined to what follows. */
  lemma SplitAfterBoundary(pre: string, x: string)
    requires EndsAtBoundary(pre)
    ensures SplitWords(pre + x) == SplitWords(pre) + SplitWords(x)
  {
    if pre == [] {
      assert pre + x == x;
    } else {
      var p := pre[..|pre| - 1];
      var c := pre[|pre| - 1];
      assert pre == p + [c] + [];
      assert pre + x == p + [c] + x;
      SplitAtSpace(p, c, x);
      SplitAtSpace(p, c, []);
      assert SplitWords([]) == [];
    }
  }

  /** A word followed by whitespace (or by nothing) is one word of the text. */
  lemma SplitWordBeforeBoundary(w: string, post: string)
    requires IsWord(w) && StartsAtBoundary(post)
    ensures SplitWords(w + post) == [w] + SplitWords(post)
  {
    SplitSingleWord(w);
    if post == [] {
      assert w + post == w;
    } else {
      var q := post[1..];
      assert w + post == w + [post[0]] + q;
      assert post == [] + [post[0]] + q;
      SplitAtSpace(w, post[0], q);
      SplitAtSpace([], post[0], q);
      assert SplitWords([]) == [];
    }
  }

  /** A word standing between two boundaries is one word of the whole text. */
  lemma SplitAroundWord(pre: string, w: string, post: string)
    requires EndsAtBoundary(pre) && IsWord(w) && StartsAtBoundary(post)
    ensures SplitWords(pre + w + post) == SplitWords(pre) + [w] + SplitWords(post)
  {
    assert pre + w + post == pre + (w + post);
    SplitAfterBoundary(pre, w + post);
    SplitWordBeforeBoundary(w, post);
  }

  /** In a message "pre w post" ("15000", "makan 15000", "15000 makan",
      "beli 12k 15000 20"), where the digit word `w` stands between
      whitespace or the ends of the text and `pre` holds no digit word, the
      amount is `int(w)` whatever `post` holds. */
  lemma FirstNumberWins(pre: string, w: string, post: string)
    requires EndsAtBoundary(pre) && StartsAtBoundary(post)
    requires NoDigitWord(SplitWords(pre))
    requires IsDigits(w)
    ensures ParseAmount(pre + w + post) == Some(DecimalValue(w))
  {
    SplitAroundWord(pre, w, post);
    FirstDigitPrefix(SplitWords(pre), w, SplitWords(post));
  }

  /** Removing a word that is not all digits from a message, wherever it
      stands, never changes the amount. */
  lemma NonDigitWordIgnored(pre: string, w: string, post: string)
    requires EndsAtBoundary(pre) && StartsAtBoundary(post)
    requires IsWord(w) && !IsDigits(w)
    ensures ParseAmount(pre + w + post) == ParseAmount(pre + post)
  {
    SplitAroundWord(pre, w, post);
    SplitAfterBoundary(pre, post);
    NonDigitWordSkipped(SplitWords(pre), w, SplitWords(post));
  }

  /** A first digit word of zeros ("0", "000") gives amount 0, even when a
      positive number follows; the bot then records nothing. */
  lemma ZeroFirstBlocksLater(pre: string, z: string, post: string)
    requires EndsAtBoundary(pre) && StartsAtBoundary(post)
    requires NoDigitWord(SplitWords(pre))
    requires |z| > 0 && forall i :: 0 <= i < |z| ==> z[i] == '0'
    ensures ParseAmount(pre + z + post) == Some(0)
  {
    assert IsDigits(z);
    FirstNumberWins(pre, z, post);
    ValueZeroIff(z);
  }

  // ---------------------------------------------------------------------
  // Examples

  /** A currency prefix glued to the number hides it: "Rp15000" has no amount. */
  lemma ExampleCurrencyPrefix()
    ensures ParseAmount("Rp15000") == None
  {
    SplitSingleWord("Rp15000");
    assert !IsDigits("Rp15000");
  }

  /** "0 5000" parses to 0, so the later 5000 is never recorded. */
  lemma ExampleZeroFirst()
    ensures ParseAmount("0 5000") == Some(0)
  {
  }
}
