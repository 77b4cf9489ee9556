/**
 * The string operations the SQL generator is built from: `sep.join(xs)`,
 * `str.replace('-', '_')`, Python's substring test `a in b`, the decimal
 * rendering of integers by `'{}'.format(n)`, and text made of
 * newline-terminated lines.
 */
module SqlText {

  /** `sep.join(xs)`. */
  function Join(sep: string, xs: seq<string>): string
  {
    if |xs| == 0 then ""
    else if |xs| == 1 then xs[0]
    else xs[0] + sep + Join(sep, xs[1..])
  }

  /** Appending an item to a non-empty join adds one separator and the item. */
  lemma {:induction false} JoinSnoc(sep: string, xs: seq<string>, x: string)
    requires |xs| > 0
    ensures Join(sep, xs + [x]) == Join(sep, xs) + sep + x
  {
    if |xs| == 1 {
      assert xs + [x] == [xs[0], x];
      assert [xs[0], x][1..] == [x];
    } else {
      assert (xs + [x])[1..] == xs[1..] + [x];
      JoinSnoc(sep, xs[1..], x);
    }
  }

  /** Concatenation of all fragments, `''.join(ss)`. */
  function Concat(ss: seq<string>): string
  {
    if ss == [] then "" else ss[0] + Concat(ss[1..])
  }

  /** A single fragment put together is itself. */
  lemma ConcatSingle(x: string)
    ensures Concat([x]) == x
  {
    assert [x][1..] == [];
  }

  /** `s.replace('-', '_')`: every hyphen becomes an underscore, nothing else changes. */
  function ReplaceHyphens(s: string): (r: string)
    ensures |r| == |s|
    ensures forall i :: 0 <= i < |s| ==> r[i] == (if s[i] == '-' then '_' else s[i])
  {
    if s == "" then "" else [if s[0] == '-' then '_' else s[0]] + ReplaceHyphens(s[1..])
  }

  /** The result of the replacement holds no hyphen, and it adds no newline. */
  lemma ReplaceHyphensClean(s: string)
    ensures '-' !in ReplaceHyphens(s)
    ensures '\n' in ReplaceHyphens(s) <==> '\n' in s
    ensures ReplaceHyphens(ReplaceHyphens(s)) == ReplaceHyphens(s)
  {
    var r := ReplaceHyphens(s);
    assert forall i :: 0 <= i < |r| ==> r[i] != '-';
    assert forall c :: c in r <==> exists i :: 0 <= i < |r| && r[i] == c;
    assert forall c :: c in s <==> exists i :: 0 <= i < |s| && s[i] == c;
  }

  /** Python's `needle in hay` when both are strings: a substring test. */
  function IsSubstring(needle: string, hay: string): bool
    decreases |hay|
  {
    needle <= hay || (hay != "" && IsSubstring(needle, hay[1..]))
  }

  /** `needle in hay` holds exactly when some slice of `hay` equals `needle`. */
  lemma {:induction false} IsSubstringIff(needle: string, hay: string)
    ensures IsSubstring(needle, hay) <==> exists i, j :: 0 <= i <= j <= |hay| && hay[i..j] == needle
    decreases |hay|
  {
    if needle <= hay {
      assert hay[0..|needle|] == needle;
    } else if hay == "" {
      forall i, j | 0 <= i <= j <= |hay| ensures hay[i..j] != needle {
        assert hay[i..j] == "";
        assert needle != "";
      }
    } else {
      IsSubstringIff(needle, hay[1..]);
      if IsSubstring(needle, hay[1..]) {
        var i, j :| 0 <= i <= j <= |hay[1..]| && hay[1..][i..j] == needle;
        assert hay[i + 1..j + 1] == needle;
      } else {
        forall i, j | 0 <= i <= j <= |hay| ensures hay[i..j] != needle {
          if i == 0 {
            assert hay[0..j] <= hay;
          } else {
            var t := hay[1..];
            assert 0 <= i - 1 <= j - 1 <= |t|;
            assert t[i - 1..j - 1] == hay[i..j];
            assert t[i - 1..j - 1] != needle;
          }
        }
      }
    }
  }

  /** The decimal digit character for `d`. */
  function DigitChar(d: nat): (c: char)
    requires d < 10
    ensures '0' <= c <= '9' && c as int - '0' as int == d
  {
    ('0' as int + d) as char
  }

  /** The decimal numeral of a natural number, without leading zeros. */
  function NatToDecimal(n: nat): (r: string)
    ensures |r| > 0
    ensures forall i :: 0 <= i < |r| ==> '0' <= r[i] <= '9'
    ensures |r| > 1 ==> r[0] != '0'
    decreases n
  {
    if n < 10 then [DigitChar(n)] else NatToDecimal(n / 10) + [DigitChar(n % 10)]
  }

  /** The number a string of decimal digits denotes. */
  function DecimalValue(s: string): nat
    requires forall i :: 0 <= i < |s| ==> '0' <= s[i] <= '9'
  {
    if s == "" then 0
    else DecimalValue(s[..|s| - 1]) * 10 + (s[|s| - 1] as int - '0' as int)
  }

  /** Reading the numeral back gives the number. */
  lemma {:induction false} NatToDecimalRoundTrip(n: nat)
    ensures DecimalValue(NatToDecimal(n)) == n
    decreases n
  {
    var r := NatToDecimal(n);
    if n >= 10 {
      NatToDecimalRoundTrip(n / 10);
      assert r[..|r| - 1] == NatToDecimal(n / 10);
    }
  }

  /** `'{}'.format(i)` for a Python `int`: an optional minus sign, then decimal digits. */
  function IntToDecimal(i: int): (r: string)
    ensures |r| > 0
    ensures forall k :: 0 <= k < |r| ==> r[k] == '-' || '0' <= r[k] <= '9'
    ensures (r[0] == '-') <==> i < 0
  {
    if i < 0 then "-" + NatToDecimal(-i) else NatToDecimal(i)
  }

  /** Reading the rendering back, sign included, gives the integer. */
  lemma IntToDecimalRoundTrip(i: int)
    ensures i < 0 ==> IntToDecimal(i)[0] == '-' && -(DecimalValue(IntToDecimal(i)[1..]) as int) == i
    ensures i >= 0 ==> DecimalValue(IntToDecimal(i)) == i
  {
    NatToDecimalRoundTrip(if i < 0 then -i else i);
    if i < 0 {
      assert IntToDecimal(i)[1..] == NatToDecimal(-i);
    }
  }

  /** Text made of the given lines, each followed by a newline. */
  function Unlines(ls: seq<string>): string
  {
    if ls == [] then "" else ls[0] + "\n" + Unlines(ls[1..])
  }

  /** Appending a line appends it and its newline to the text. */
  lemma {:induction false} UnlinesSnoc(ls: seq<string>, l: string)
    ensures Unlines(ls + [l]) == Unlines(ls) + l + "\n"
  {
    if ls == [] {
      assert [] + [l] == [l];
    } else {
      assert (ls + [l])[1..] == ls[1..] + [l];
      UnlinesSnoc(ls[1..], l);
    }
  }

  /** Text of at least one line starts with its first line. */
  lemma UnlinesFirst(ls: seq<string>)
    requires |ls| >= 1
    ensures ls[0] + "\n" <= Unlines(ls)
  {
  }

  /** Two lines appended to a text append each with its newline. */
  lemma UnlinesLastTwo(init: seq<string>, a: string, b: string)
    ensures Unlines(init + [a] + [b]) == Unlines(init) + a + "\n" + b + "\n"
  {
    UnlinesSnoc(init, a);
    UnlinesSnoc(init + [a], b);
  }

  /** Four lines as text. */
  lemma Unlines4(a: string, b: string, c: string, d: string)
    ensures Unlines([a, b, c, d]) == a + "\n" + (b + "\n") + (c + "\n") + (d + "\n")
  {
    var ls := [a, b, c, d];
    assert ls[1..] == [b, c, d];
    assert ls[1..][1..] == [c, d];
    assert ls[1..][1..][1..] == [d];
    assert ls[1..][1..][1..][1..] == [];
    assert Unlines([d]) == d + "\n";
    assert Unlines([c, d]) == c + "\n" + (d + "\n");
    assert Unlines([b, c, d]) == b + "\n" + (c + "\n" + (d + "\n"));
  }

  /** Concatenation regrouped to the right. */
  lemma Regroup(x: string, y: string, z: string)
    ensures x + y + z == x + (y + z)
  {
  }

  /** The position of the first newline in `s`, or `|s|` when there is none. */
  function LineEnd(s: string): (k: nat)
    ensures k <= |s|
    ensures forall i :: 0 <= i < k ==> s[i] != '\n'
    ensures k < |s| ==> s[k] == '\n'
  {
    if s == "" || s[0] == '\n' then 0 else 1 + LineEnd(s[1..])
  }

  /** The lines of `s`: the pieces between newlines, a final newline ending the last line. */
  function Lines(s: string): seq<string>
    decreases |s|
  {
    if s == "" then []
    else
      var k := LineEnd(s);
      if k == |s| then [s] else [s[..k]] + Lines(s[k + 1..])
  }

  /** Splitting newline-terminated text into lines gives back the lines it was made of. */
  lemma {:induction false} LinesUnlines(ls: seq<string>)
    requires forall i :: 0 <= i < |ls| ==> '\n' !in ls[i]
    ensures Lines(Unlines(ls)) == ls
  {
    if ls != [] {
      var l := ls[0];
      var rest := Unlines(ls[1..]);
      var s := Unlines(ls);
      assert s == l + "\n" + rest;
      assert s[|l|] == '\n';
      forall i | 0 <= i < |l| ensures s[i] != '\n' {
        assert s[i] == l[i];
      }
      var k := LineEnd(s);
      assert k == |l|;
      assert s[..k] == l;
      assert s[k + 1..] == rest;
      LinesUnlines(ls[1..]);
      assert ls == [l] + ls[1..];
    }
  }
}
