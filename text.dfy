/** The string operations the editor builds on: lower-casing, substring
    search, `strip`, the case-insensitive replacement used when an entry is
    renamed or duplicated, and `_suggest_next_name`. */
module ParText {

  // ---------------------------------------------------------------------
  // Case and whitespace
  // ---------------------------------------------------------------------

  function LowerChar(c: char): char
  {
    if 'A' <= c <= 'Z' then (c as int + 32) as char else c
  }

  /** `str.lower()` on the ASCII letters; every other character is kept. */
  function Lower(s: string): (r: string)
    ensures |r| == |s|
    ensures forall i :: 0 <= i < |s| ==> r[i] == LowerChar(s[i])
  {
    seq(|s|, i requires 0 <= i < |s| => LowerChar(s[i]))
  }

  /** `str.isspace()`: the characters Python's `strip()` removes. */
  predicate IsSpace(c: char)
  {
    || c == ' ' || c == '\t' || c == '\n' || c == '\r'
    || c == '\U{000B}' || c == '\U{000C}'
    || ('\U{001C}' <= c <= '\U{001F}')
    || c == '\U{0085}' || c == '\U{00A0}' || c == '\U{1680}'
    || ('\U{2000}' <= c <= '\U{200A}')
    || c == '\U{2028}' || c == '\U{2029}' || c == '\U{202F}' || c == '\U{205F}' || c == '\U{3000}'
  }

  function StripLeft(s: string): (r: string)
    ensures |r| <= |s| && r == s[|s| - |r|..]
    ensures |r| > 0 ==> !IsSpace(r[0])
    ensures forall i :: 0 <= i < |s| - |r| ==> IsSpace(s[i])
  {
    if |s| > 0 && IsSpace(s[0]) then
      var t := StripLeft(s[1..]);
      assert s[1..][|s| - 1 - |t|..] == s[|s| - |t|..];
      assert forall i :: 1 <= i < |s| - |t| ==> s[i] == s[1..][i - 1];
      t
    else s
  }

  function StripRight(s: string): (r: string)
    ensures |r| <= |s| && r == s[..|r|]
    ensures |r| > 0 ==> !IsSpace(r[|r| - 1])
    ensures forall i :: |r| <= i < |s| ==> IsSpace(s[i])
  {
    if |s| > 0 && IsSpace(s[|s| - 1]) then StripRight(s[..|s| - 1]) else s
  }

  /** `str.strip()`: what is left of `s` when the leading and trailing
      whitespace is removed; it is empty exactly when `s` is all
      whitespace. */
  function Strip(s: string): (r: string)
    ensures |r| <= |StripLeft(s)| && r == StripLeft(s)[..|r|]
    ensures |r| > 0 ==> !IsSpace(r[0]) && !IsSpace(r[|r| - 1])
    ensures |r| == 0 <==> forall k :: 0 <= k < |s| ==> IsSpace(s[k])
  {
    var left := StripLeft(s);
    var r := StripRight(left);
    assert |left| > 0 ==> s[|s| - |left|] == left[0] && !IsSpace(left[0]);
    r
  }

  // ---------------------------------------------------------------------
  // Substring search
  // ---------------------------------------------------------------------

  /** `needle` occurs in `hay` at index `i`. */
  predicate OccursAt(hay: string, needle: string, i: int)
  {
    0 <= i && i + |needle| <= |hay| && hay[i..i + |needle|] == needle
  }

  /** `hay.find(needle, from)`: the first occurrence at or after `from`,
      or -1. */
  function FindFrom(hay: string, needle: string, from: nat): (r: int)
    ensures r == -1 || (from <= r && OccursAt(hay, needle, r))
    decreases |hay| - from
  {
    if from + |needle| > |hay| then -1
    else if hay[from..from + |needle|] == needle then from
    else FindFrom(hay, needle, from + 1)
  }

  /** No occurrence at or after `from` comes before the one found. */
  lemma {:induction false} FindFromFirst(hay: string, needle: string, from: nat)
    ensures forall i :: from <= i && (FindFrom(hay, needle, from) == -1 || i < FindFrom(hay, needle, from)) ==>
              !OccursAt(hay, needle, i)
    decreases |hay| - from
  {
    if from + |needle| <= |hay| && hay[from..from + |needle|] != needle {
      FindFromFirst(hay, needle, from + 1);
    }
  }

  /** `hay.find(needle)`. */
  function Find(hay: string, needle: string): (r: int)
    ensures r == -1 || OccursAt(hay, needle, r)
  {
    FindFrom(hay, needle, 0)
  }

  /** `find` answers -1 exactly when the needle does not occur, and
      otherwise the first place where it does. */
  lemma FindSpec(hay: string, needle: string)
    ensures Find(hay, needle) == -1 <==> forall i :: !OccursAt(hay, needle, i)
    ensures Find(hay, needle) != -1 ==> forall i :: 0 <= i < Find(hay, needle) ==> !OccursAt(hay, needle, i)
  {
    FindFromFirst(hay, needle, 0);
  }

  /** `needle in hay`. */
  predicate Contains(hay: string, needle: string)
  {
    Find(hay, needle) != -1
  }

  /** The string-field update of `_rename_entry` and `_duplicate_entry`:
      when `oldLower` occurs in the lower-cased value, its first occurrence
      is replaced by `newName` and the rest of the value is kept as it was;
      otherwise the value is unchanged. */
  function ReplaceFirstIgnoringCase(value: string, oldLower: string, newName: string): (r: string)
    ensures !Contains(Lower(value), oldLower) ==> r == value
    ensures Contains(Lower(value), oldLower) ==>
      var idx := Find(Lower(value), oldLower);
      && Lower(value[idx..idx + |oldLower|]) == oldLower
      && |r| == |value| - |oldLower| + |newName|
      && r[..idx] == value[..idx]
      && r[idx..idx + |newName|] == newName
      && r[idx + |newName|..] == value[idx + |oldLower|..]
  {
    if Contains(Lower(value), oldLower) then
      var idx := Find(Lower(value), oldLower);
      assert Lower(value)[idx..idx + |oldLower|] == oldLower;
      assert Lower(value[idx..idx + |oldLower|]) == Lower(value)[idx..idx + |oldLower|];
      value[..idx] + newName + value[idx + |oldLower|..]
    else
      value
  }

  // ---------------------------------------------------------------------
  // Decimal numbers
  // ---------------------------------------------------------------------

  /** The regular expression class `\d`, on ASCII digits. */
  predicate IsDigit(c: char)
  {
    '0' <= c <= '9'
  }

  predicate AllDigits(s: string)
  {
    forall i :: 0 <= i < |s| ==> IsDigit(s[i])
  }

  function DigitChar(d: nat): (c: char)
    requires d < 10
    ensures IsDigit(c) && c as int - '0' as int == d
  {
    ('0' as int + d) as char
  }

  /** `int(s)` for a string of digits. */
  function DecimalValue(s: string): (n: nat)
    requires AllDigits(s)
  {
    if |s| == 0 then 0
    else DecimalValue(s[..|s| - 1]) * 10 + (s[|s| - 1] as int - '0' as int)
  }

  /** `str(n)`. */
  function Decimal(n: nat): (s: string)
    ensures AllDigits(s) && |s| > 0
  {
    if n < 10 then [DigitChar(n)] else Decimal(n / 10) + [DigitChar(n % 10)]
  }

  function Zeros(k: nat): (s: string)
    ensures |s| == k && AllDigits(s)
    ensures forall i :: 0 <= i < k ==> s[i] == '0'
  {
    seq(k, _ => '0')
  }

  /** `f"{n:0{width}d}"`: `str(n)` padded with leading zeros to `width`. */
  function ZeroPadded(n: nat, width: nat): (s: string)
    ensures AllDigits(s)
    ensures |s| == if |Decimal(n)| < width then width else |Decimal(n)|
  {
    var d := Decimal(n);
    if |d| < width then Zeros(width - |d|) + d else d
  }

  lemma {:induction false} DecimalValueOfDecimal(n: nat)
    ensures DecimalValue(Decimal(n)) == n
    decreases n
  {
    if n >= 10 {
      DecimalValueOfDecimal(n / 10);
      var s := Decimal(n);
      assert s[..|s| - 1] == Decimal(n / 10);
    }
  }

  lemma {:induction false} DecimalValueOfZeros(k: nat)
    ensures DecimalValue(Zeros(k)) == 0
  {
    if k > 0 {
      DecimalValueOfZeros(k - 1);
      assert Zeros(k)[..k - 1] == Zeros(k - 1);
    }
  }

  /** Leading zeros do not change a decimal number's value. */
  lemma {:induction false} DecimalValueLeadingZeros(k: nat, s: string)
    requires AllDigits(s)
    ensures DecimalValue(Zeros(k) + s) == DecimalValue(s)
    decreases |s|
  {
    if |s| == 0 {
      assert Zeros(k) + s == Zeros(k);
      DecimalValueOfZeros(k);
    } else {
      var t := Zeros(k) + s;
      assert t[..|t| - 1] == Zeros(k) + s[..|s| - 1];
      DecimalValueLeadingZeros(k, s[..|s| - 1]);
    }
  }

  /** The zero-padded rendering reads back as the number it renders. */
  lemma ZeroPaddedValue(n: nat, width: nat)
    ensures DecimalValue(ZeroPadded(n, width)) == n
  {
    DecimalValueOfDecimal(n);
    if |Decimal(n)| < width {
      DecimalValueLeadingZeros(width - |Decimal(n)|, Decimal(n));
    }
  }

  // ---------------------------------------------------------------------
  // _suggest_next_name
  // ---------------------------------------------------------------------

  /** Where `$` lets the digit run end: at the end of the name, or before a
      final newline. */
  function RunEnd(name: string): (e: nat)
    ensures e <= |name|
  {
    if |name| > 0 && name[|name| - 1] == '\n' then |name| - 1 else |name|
  }

  /** The start of the longest run of digits ending at `end`. */
  function RunStart(name: string, end: nat): (k: nat)
    requires end <= |name|
    ensures k <= end && AllDigits(name[k..end])
    ensures k > 0 ==> !IsDigit(name[k - 1])
    decreases end
  {
    if end > 0 && IsDigit(name[end - 1]) then
      var k := RunStart(name, end - 1);
      assert name[k..end] == name[k..end - 1] + [name[end - 1]];
      k
    else end
  }

  predicate NoNewline(s: string)
  {
    forall i :: 0 <= i < |s| ==> s[i] != '\n'
  }

  /** `re.match(r'^(.*?)(\d+)$', name)` succeeds: there is a nonempty digit
      run where `$` can match, and `.` (which does not match a newline)
      covers everything before it. */
  predicate HasNumberSuffix(name: string)
  {
    var e := RunEnd(name);
    var k := RunStart(name, e);
    k < e && NoNewline(name[..k])
  }

  /** _suggest_next_name: the prefix followed by the trailing number plus
      one, zero-padded to the number's original width; a name without a
      trailing number gets "_COPY" appended. */
  function SuggestNextName(name: string): (r: string)
    ensures HasNumberSuffix(name) ==>
              var k := RunStart(name, RunEnd(name));
              && |r| >= RunEnd(name)
              && r[..k] == name[..k]
              && AllDigits(r[k..])
              && DecimalValue(r[k..]) == DecimalValue(name[k..RunEnd(name)]) + 1
    ensures !HasNumberSuffix(name) ==> |r| == |name| + 5 && r[..|name|] == name && r[|name|..] == "_COPY"
  {
    if HasNumberSuffix(name) then
      var e := RunEnd(name);
      var k := RunStart(name, e);
      Incremented(name[..k], name[k..e])
    else
      name + "_COPY"
  }

  /** `f"{prefix}{num + 1:0{width}d}"` with `num` and `width` taken from
      the digit run. */
  function Incremented(prefix: string, digits: string): (r: string)
    requires AllDigits(digits)
    ensures |r| >= |prefix + digits|
    ensures r[..|prefix|] == prefix
    ensures AllDigits(r[|prefix|..])
    ensures DecimalValue(r[|prefix|..]) == DecimalValue(digits) + 1
  {
    var next := ZeroPadded(DecimalValue(digits) + 1, |digits|);
    ZeroPaddedValue(DecimalValue(digits) + 1, |digits|);
    assert (prefix + next)[|prefix|..] == next;
    prefix + next
  }

  /** The pattern applied to a name whose digit run is `digits`, preceded
      by `prefix`. */
  lemma {:induction false} SuggestAt(name: string, prefix: string, digits: string)
    requires |digits| > 0 && RunEnd(name) == |prefix| + |digits|
    requires RunStart(name, |prefix| + |digits|) == |prefix|
    requires name[..|prefix|] == prefix && name[|prefix|..|prefix| + |digits|] == digits
    requires NoNewline(prefix)
    ensures SuggestNextName(name) == Incremented(prefix, digits)
  {
    var e := RunEnd(name);
    var k := RunStart(name, e);
    assert name[..k] == prefix;
    assert HasNumberSuffix(name);
    assert name[k..e] == digits;
  }

  lemma {:induction false} RunEndOf(prefix: string, digits: string, tail: string)
    requires AllDigits(digits) && |digits| > 0
    requires tail == "" || tail == "\n"
    ensures RunEnd(prefix + digits + tail) == |prefix| + |digits|
  {
    var name := prefix + digits + tail;
    if tail == "" {
      assert name[|name| - 1] == digits[|digits| - 1];
    } else {
      assert name[|name| - 1] == '\n';
    }
  }

  /** How a name made of a prefix and a number (and possibly the newline
      `$` allows before the end) is split by the pattern. */
  lemma {:induction false} SuggestOfSplit(prefix: string, digits: string, tail: string)
    requires AllDigits(digits) && |digits| > 0
    requires NoNewline(prefix) && (|prefix| == 0 || !IsDigit(prefix[|prefix| - 1]))
    requires tail == "" || tail == "\n"
    ensures SuggestNextName(prefix + digits + tail)
            == prefix + ZeroPadded(DecimalValue(digits) + 1, |digits|)
  {
    var name := prefix + digits + tail;
    RunEndOf(prefix, digits, tail);
    RunStartSplit(prefix, digits, tail);
    SplitSlices(prefix, digits, tail);
    SuggestAt(name, prefix, digits);
  }

  lemma {:induction false} SplitSlices(prefix: string, digits: string, tail: string)
    ensures (prefix + digits + tail)[..|prefix|] == prefix
    ensures (prefix + digits + tail)[|prefix|..|prefix| + |digits|] == digits
  {
    var name := prefix + digits + tail;
    assert name[..|prefix|] == prefix;
    assert name[|prefix|..|prefix| + |digits|] == digits;
  }

  lemma {:induction false} RunStartSplit(prefix: string, digits: string, tail: string)
    requires AllDigits(digits)
    requires |prefix| == 0 || !IsDigit(prefix[|prefix| - 1])
    ensures RunStart(prefix + digits + tail, |prefix| + |digits|) == |prefix|
  {
    var name := prefix + digits + tail;
    assert name[..|prefix| + |digits|] == prefix + digits;
    RunStartPrefix(name, |prefix| + |digits|);
    RunStartOf(prefix, digits);
  }

  /** A name ending in a number gets the same prefix and the next number,
      at least as wide as before. */
  lemma {:induction false} SuggestIncrements(prefix: string, digits: string)
    requires AllDigits(digits) && |digits| > 0
    requires NoNewline(prefix) && (|prefix| == 0 || !IsDigit(prefix[|prefix| - 1]))
    ensures var r := SuggestNextName(prefix + digits);
            && |r| >= |prefix + digits|
            && r[..|prefix|] == prefix
            && AllDigits(r[|prefix|..])
            && DecimalValue(r[|prefix|..]) == DecimalValue(digits) + 1
  {
    assert prefix + digits + "" == prefix + digits;
    SuggestOfSplit(prefix, digits, "");
    assert SuggestNextName(prefix + digits) == Incremented(prefix, digits);
  }

  lemma {:induction false} RunStartOf(prefix: string, digits: string)
    requires AllDigits(digits)
    requires |prefix| == 0 || !IsDigit(prefix[|prefix| - 1])
    ensures RunStart(prefix + digits, |prefix + digits|) == |prefix|
    decreases |digits|
  {
    var name := prefix + digits;
    if |digits| == 0 {
      assert name == prefix;
    } else {
      var shorter := digits[..|digits| - 1];
      var n := |name|;
      assert name[n - 1] == digits[|digits| - 1];
      assert RunStart(name, n) == RunStart(name, n - 1);
      RunStartPrefix(name, n - 1);
      assert name[..n - 1] == prefix + shorter;
      RunStartOf(prefix, shorter);
    }
  }

  /** The run start only depends on the characters before `end`. */
  lemma {:induction false} RunStartPrefix(name: string, end: nat)
    requires end <= |name|
    ensures RunStart(name, end) == RunStart(name[..end], end)
    decreases end
  {
    if end > 0 {
      RunStartPrefix(name, end - 1);
      RunStartPrefix(name[..end], end - 1);
      assert name[..end][..end - 1] == name[..end - 1];
    }
  }

  /** A name that does not end in a digit (nor in a digit and a final
      newline) gets "_COPY" appended. */
  lemma SuggestWithoutNumber(name: string)
    requires RunEnd(name) == 0 || !IsDigit(name[RunEnd(name) - 1])
    ensures SuggestNextName(name) == name + "_COPY"
  {
    var e := RunEnd(name);
    assert RunStart(name, e) == e;
    assert !HasNumberSuffix(name);
  }

  lemma Value01()
    ensures DecimalValue("01") == 1
  {
    assert "01"[..1] == "0" && "0"[..0] == "";
  }

  lemma Value99()
    ensures DecimalValue("99") == 99
  {
    assert "99"[..1] == "9" && "9"[..0] == "";
  }

  lemma Rendering02()
    ensures ZeroPadded(2, 2) == "02"
  {
  }

  lemma Rendering100()
    ensures ZeroPadded(100, 2) == "100"
  {
    assert Decimal(10) == "10";
  }

  /** The examples of the editor's duplicate dialog: "Orc01" becomes
      "Orc02" and "Orc99" becomes "Orc100". */
  lemma SuggestOrc01(name: string)
    requires name == "Orc01"
    ensures SuggestNextName(name) == "Orc02"
  {
    Value01();
    Rendering02();
    assert name == "Orc" + "01" + "";
    SuggestOfSplit("Orc", "01", "");
  }

  lemma SuggestOrc99(name: string)
    requires name == "Orc99"
    ensures SuggestNextName(name) == "Orc100"
  {
    Value99();
    Rendering100();
    assert name == "Orc" + "99" + "";
    SuggestOfSplit("Orc", "99", "");
  }

  /** `$` also matches before a final newline, which the suggestion then
      drops. */
  lemma SuggestDropsFinalNewline(name: string)
    requires name == "Orc01\n"
    ensures SuggestNextName(name) == "Orc02"
  {
    Value01();
    Rendering02();
    assert name == "Orc" + "01" + "\n";
    SuggestOfSplit("Orc", "01", "\n");
  }

  /** Names the pattern does not match. */
  lemma SuggestCopyExamples(a: string, b: string)
    requires a == "Orc" && b == "a\nb7"
    ensures SuggestNextName(a) == "Orc_COPY"
    ensures SuggestNextName(b) == "a\nb7_COPY"
  {
    assert RunStart(b, 3) == 3;
    assert RunStart(b, 4) == 3;
    assert b[..3][1] == '\n';
  }
}
