/** The tolerant-JSON repair applied to the file text before parsing: the
    substitution of the pattern `\,(?=\s*?[\}\]])` by the empty string. */
module TrailingCommas {

  /** `\s` of .NET regular expressions without ECMAScript mode: form feed,
      line feed, carriage return, tab, vertical tab, NEXT LINE (U+0085) and
      the Unicode separator categories Zs, Zl and Zp. */
  predicate IsWs(c: char)
  {
    || c == ' ' || c == '\t' || c == '\n' || c == '\r'
    || c == '\U{B}' || c == '\U{C}' || c == '\U{85}'
    || c == '\U{A0}' || c == '\U{1680}'
    || ('\U{2000}' <= c <= '\U{200A}')
    || c == '\U{2028}' || c == '\U{2029}'
    || c == '\U{202F}' || c == '\U{205F}' || c == '\U{3000}'
  }

  /** The character class `[\}\]]`. */
  predicate IsCloser(c: char)
  {
    c == '}' || c == ']'
  }

  /** The lookahead `(?=\s*?[\}\]])` tried at the start of `rest`. The lazy
      quantifier only changes which whitespace run is tried first, not whether
      some run succeeds. */
  predicate ClosesAhead(rest: seq<char>)
  {
    |rest| > 0 && (IsCloser(rest[0]) || (IsWs(rest[0]) && ClosesAhead(rest[1..])))
  }

  /** Reference definition: position `i` of `s` holds a comma that is followed
      by zero or more whitespace characters and then `}` or `]`. */
  predicate IsTrailingComma(s: seq<char>, i: int)
  {
    && 0 <= i < |s|
    && s[i] == ','
    && exists k :: i < k < |s| && IsCloser(s[k]) && (forall j :: i < j < k ==> IsWs(s[j]))
  }

  /** For every position of `s`, whether the pattern matches there. */
  function TrailingMask(s: seq<char>): seq<bool>
  {
    seq(|s|, i requires 0 <= i < |s| => IsTrailingComma(s, i))
  }

  /** The characters of `s` at the positions `drop` does not mark, in their
      original order. */
  function Erase(s: seq<char>, drop: seq<bool>): (r: seq<char>)
    requires |drop| == |s|
    ensures |r| == |s| - CountTrue(drop)
  {
    if |s| == 0 then []
    else if drop[0] then Erase(s[1..], drop[1..])
    else [s[0]] + Erase(s[1..], drop[1..])
  }

  /** How many positions `m` marks. */
  function CountTrue(m: seq<bool>): (n: nat)
    ensures n <= |m|
  {
    if |m| == 0 then 0 else (if m[0] then 1 else 0) + CountTrue(m[1..])
  }

  /** The number of commas the repair removes from `s`. */
  function TrailingCount(s: seq<char>): nat
  {
    CountTrue(TrailingMask(s))
  }

  /** `Regex.Replace(s, @"\,(?=\s*?[\}\]])", "")`: one left-to-right pass in
      which every match is a single comma and the lookahead is judged on the
      original text, so a comma is dropped exactly when the lookahead holds
      right after it, and every other character is copied. */
  function Repair(s: seq<char>): (r: seq<char>)
    ensures |r| <= |s|
  {
    if |s| == 0 then []
    else if s[0] == ',' && ClosesAhead(s[1..]) then Repair(s[1..])
    else [s[0]] + Repair(s[1..])
  }

  /** The first `k` characters of `rest` are all whitespace. */
  predicate WsBefore(rest: seq<char>, k: int)
    requires 0 <= k <= |rest|
  {
    forall j :: 0 <= j < k ==> IsWs(rest[j])
  }

  /** Some closer in `rest` is preceded only by whitespace. */
  predicate CloserAfterWs(rest: seq<char>)
  {
    exists k :: 0 <= k < |rest| && IsCloser(rest[k]) && WsBefore(rest, k)
  }

  /** The recursive lookahead accepts exactly when some closer is preceded
      only by whitespace. */
  lemma {:induction false} ClosesAheadMeansCloserAfterWs(rest: seq<char>)
    ensures ClosesAhead(rest) <==> CloserAfterWs(rest)
  {
    if |rest| > 0 {
      if IsCloser(rest[0]) {
        assert WsBefore(rest, 0);
      } else {
        var tail := rest[1..];
        ClosesAheadMeansCloserAfterWs(tail);
        if ClosesAhead(rest) {
          var k :| 0 <= k < |tail| && IsCloser(tail[k]) && WsBefore(tail, k);
          assert IsCloser(rest[k + 1]);
          forall j | 0 <= j < k + 1 ensures IsWs(rest[j]) {
            if j > 0 { assert rest[j] == tail[j - 1]; }
          }
          assert WsBefore(rest, k + 1);
        }
        if CloserAfterWs(rest) {
          var k :| 0 <= k < |rest| && IsCloser(rest[k]) && WsBefore(rest, k);
          assert IsWs(rest[0]);
          assert IsCloser(tail[k - 1]);
          forall j | 0 <= j < k - 1 ensures IsWs(tail[j]) {
            assert tail[j] == rest[j + 1];
          }
          assert WsBefore(tail, k - 1);
        }
      }
    }
  }

  /** The reference definition agrees with the comma test the repair makes. */
  lemma TrailingCommaIsLookaheadMatch(s: seq<char>, i: int)
    requires 0 <= i < |s|
    ensures IsTrailingComma(s, i) <==> s[i] == ',' && ClosesAhead(s[i + 1..])
  {
    var rest := s[i + 1..];
    ClosesAheadMeansCloserAfterWs(rest);
    if s[i] == ',' {
      if IsTrailingComma(s, i) {
        var k :| i < k < |s| && IsCloser(s[k]) && (forall j :: i < j < k ==> IsWs(s[j]));
        assert IsCloser(rest[k - i - 1]);
        forall j | 0 <= j < k - i - 1 ensures IsWs(rest[j]) {
          assert rest[j] == s[i + 1 + j];
        }
        assert WsBefore(rest, k - i - 1);
      }
      if ClosesAhead(rest) {
        var k :| 0 <= k < |rest| && IsCloser(rest[k]) && WsBefore(rest, k);
        assert IsCloser(s[i + 1 + k]);
        forall j | i < j < i + 1 + k ensures IsWs(s[j]) {
          assert s[j] == rest[j - i - 1];
        }
      }
    }
  }

  /** Dropping the first character shifts the mask by one: whether a comma
      qualifies depends only on the text after it. */
  lemma MaskOfTail(s: seq<char>)
    requires |s| > 0
    ensures TrailingMask(s)[1..] == TrailingMask(s[1..])
  {
  }

  /** What the repair does: it deletes exactly the trailing commas of its
      input and keeps every other character, in the original order. */
  lemma {:induction false} RepairErasesExactlyTrailingCommas(s: seq<char>)
    ensures Repair(s) == Erase(s, TrailingMask(s))
  {
    if |s| > 0 {
      RepairErasesExactlyTrailingCommas(s[1..]);
      MaskOfTail(s);
      TrailingCommaIsLookaheadMatch(s, 0);
    }
  }

  /** The repair never inserts: it removes exactly as many characters as
      there are trailing commas. */
  lemma RepairLength(s: seq<char>)
    ensures |Repair(s)| == |s| - TrailingCount(s)
  {
    RepairErasesExactlyTrailingCommas(s);
  }

  /** A mask that marks nothing erases nothing. */
  lemma {:induction false} EraseNothing(s: seq<char>, drop: seq<bool>)
    requires |drop| == |s|
    requires forall i :: 0 <= i < |drop| ==> !drop[i]
    ensures Erase(s, drop) == s
  {
    if |s| > 0 {
      EraseNothing(s[1..], drop[1..]);
    }
  }

  /** A mask that marks some position counts it. */
  lemma {:induction false} CountTruePositive(m: seq<bool>, i: int)
    requires 0 <= i < |m| && m[i]
    ensures CountTrue(m) > 0
  {
    if i > 0 {
      CountTruePositive(m[1..], i - 1);
    }
  }

  /** The repair leaves a text unchanged exactly when it has no trailing comma. */
  lemma RepairFixpointIffNoTrailingComma(s: seq<char>)
    ensures Repair(s) == s <==> forall i :: 0 <= i < |s| ==> !IsTrailingComma(s, i)
  {
    RepairErasesExactlyTrailingCommas(s);
    var m := TrailingMask(s);
    if forall i :: 0 <= i < |s| ==> !IsTrailingComma(s, i) {
      EraseNothing(s, m);
    } else {
      var i :| 0 <= i < |s| && IsTrailingComma(s, i);
      CountTruePositive(m, i);
    }
  }

  /** The repair is not idempotent: qualification is judged on the original
      text, so a comma that only becomes trailing once its neighbour has gone
      survives the pass. */
  lemma RepairIsSinglePass()
    ensures Repair(",,]") == ",]"
    ensures Repair(Repair(",,]")) == "]"
  {
  }

  /** The repair does not know about JSON string literals: a comma inside a
      quoted string that happens to precede `]` is removed too. */
  lemma RepairIgnoresStringLiterals()
    ensures Repair("\"a,]\"") == "\"a]\""
  {
  }

  /** A trailing comma in an object is removed. */
  lemma RepairRemovesTrailingCommaInObject()
    ensures Repair("{\"a\":1,}") == "{\"a\":1}"
  {
    var obj := "{\"a\":1,}";
    assert Repair(obj[7..]) == "}" by { assert obj[7..] == "}"; assert obj[7..][1..] == []; }
    assert Repair(obj[6..]) == "}" by { assert obj[6..][1..] == obj[7..]; assert ClosesAhead(obj[7..]); }
    assert Repair(obj[5..]) == "1}" by { assert obj[5..][1..] == obj[6..]; }
    assert Repair(obj[4..]) == ":1}" by { assert obj[4..][1..] == obj[5..]; }
    assert Repair(obj[3..]) == "\":1}" by { assert obj[3..][1..] == obj[4..]; }
    assert Repair(obj[2..]) == "a\":1}" by { assert obj[2..][1..] == obj[3..]; }
    assert Repair(obj[1..]) == "\"a\":1}" by { assert obj[1..][1..] == obj[2..]; }
    assert obj == obj[0..];
  }

  /** A trailing comma in an array is removed even with whitespace before the
      closer; the comma between the elements stays. */
  lemma RepairRemovesTrailingCommaInArray()
    ensures Repair("[1,2, \n]") == "[1,2 \n]"
  {
    var arr := "[1,2, \n]";
    assert Repair(arr[4..]) == " \n]" by {
      assert ClosesAhead(" \n]") by { assert " \n]"[1..] == "\n]"; assert "\n]"[1..] == "]"; }
      assert arr[4..] == ", \n]";
    }
    assert Repair(arr[3..]) == "2 \n]" by { assert arr[3..][1..] == arr[4..]; }
    assert Repair(arr[2..]) == ",2 \n]" by { assert arr[2..][1..] == arr[3..]; }
    assert Repair(arr[1..]) == "1,2 \n]" by { assert arr[1..][1..] == arr[2..]; }
    assert arr == arr[0..];
  }
}
