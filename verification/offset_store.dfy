/**
 The per-node offset records. Each node id owns one text record holding a
 number of seconds; a record that was never written is absent. Reading takes
 the first whitespace-delimited word of the record, the way formatted string
 extraction from a stream does; initialising writes the character `0` and a
 newline. Parsing the word is restricted to decimal digit strings.
 */
module OffsetStore {
  import opened Types

  /** Record content by node id. */
  type Store = map<nat, string>

  /** The characters `isspace` accepts in the C locale: space, tab, newline,
      vertical tab, form feed and carriage return. */
  predicate IsSpace(c: char) {
    c == ' ' || 9 <= c as int <= 13
  }

  predicate NoSpace(s: string) {
    forall i :: 0 <= i < |s| ==> !IsSpace(s[i])
  }

  predicate AllSpace(s: string) {
    forall i :: 0 <= i < |s| ==> IsSpace(s[i])
  }

  /** The longest prefix free of whitespace. */
  function TakeWord(s: string): (r: string)
    ensures r <= s
    ensures NoSpace(r)
    ensures |r| < |s| ==> IsSpace(s[|r|])
    decreases |s|
  {
    if |s| > 0 && !IsSpace(s[0]) then [s[0]] + TakeWord(s[1..]) else []
  }

  /** What `ifs >> res` leaves in `res`: leading whitespace is skipped and
      the word after it taken, so the result is empty exactly when the
      content holds nothing but whitespace. */
  function FirstWord(content: string): (r: string)
    ensures NoSpace(r)
    ensures r == [] <==> AllSpace(content)
    decreases |content|
  {
    if |content| > 0 && IsSpace(content[0]) then FirstWord(content[1..]) else TakeWord(content)
  }

  /** `ReadOffset`: the first word of the node's record; an absent record
      cannot be opened and leaves the result empty. */
  function ReadOffset(store: Store, id: nat): (r: string)
    ensures NoSpace(r)
    ensures id !in store ==> r == ""
    ensures id in store ==> (r == "" <==> AllSpace(store[id]))
  {
    if id in store then FirstWord(store[id]) else ""
  }

  /** The content `InitOffset` writes: the character `0` and a newline. */
  const InitialRecord: string := "0\n"

  /** `InitOffset`: (re)writes the node's record so that it reads `"0"`,
      creating it when absent. Every other record is left as it was. */
  function InitOffset(store: Store, id: nat): (r: Store)
    ensures ReadOffset(r, id) == "0"
    ensures r.Keys == store.Keys + {id}
    ensures forall other :: other in store && other != id ==> r[other] == store[other]
  {
    WordRoundTrip("0");
    store[id := InitialRecord]
  }

  lemma {:induction false} TakeWordStops(w: string, rest: string)
    requires NoSpace(w)
    requires |rest| == 0 || IsSpace(rest[0])
    ensures TakeWord(w + rest) == w
    decreases |w|
  {
    if |w| > 0 {
      assert (w + rest)[1..] == w[1..] + rest;
      TakeWordStops(w[1..], rest);
    } else {
      assert w + rest == rest;
    }
  }

  /** A record holding one word followed by a newline reads back as exactly
      that word. */
  lemma {:induction false} WordRoundTrip(w: string)
    requires NoSpace(w)
    ensures FirstWord(w + "\n") == w
  {
    if |w| == 0 {
      assert w + "\n" == "\n";
      assert FirstWord("\n"[1..]) == "";
    } else {
      assert (w + "\n")[0] == w[0];
      TakeWordStops(w, "\n");
    }
  }

  /** The word extraction takes: whatever blank run comes first is skipped,
      and the word after it ends at the next whitespace or at the end of the
      content. */
  lemma {:induction false} FirstWordOf(pre: string, w: string, rest: string)
    requires AllSpace(pre) && NoSpace(w) && |w| > 0
    requires |rest| == 0 || IsSpace(rest[0])
    ensures FirstWord(pre + w + rest) == w
    decreases |pre|
  {
    if |pre| > 0 {
      assert (pre + w + rest)[0] == pre[0];
      assert (pre + w + rest)[1..] == pre[1..] + w + rest;
      FirstWordOf(pre[1..], w, rest);
    } else {
      assert pre + w + rest == w + rest;
      assert (w + rest)[0] == w[0];
      TakeWordStops(w, rest);
    }
  }

  /** Reading a node's record yields the first word of its content. */
  lemma ReadOffsetOf(store: Store, id: nat, pre: string, w: string, rest: string)
    requires id in store && store[id] == pre + w + rest
    requires AllSpace(pre) && NoSpace(w) && |w| > 0
    requires |rest| == 0 || IsSpace(rest[0])
    ensures ReadOffset(store, id) == w
  {
    FirstWordOf(pre, w, rest);
  }

  predicate IsDigit(c: char) {
    '0' <= c <= '9'
  }

  predicate AllDigits(s: string) {
    forall i :: 0 <= i < |s| ==> IsDigit(s[i])
  }

  /** Value of a decimal digit string, read most significant digit first. */
  function DigitsValue(s: string): nat
    requires AllDigits(s)
    decreases |s|
  {
    if |s| == 0 then 0 else DigitsValue(s[..|s| - 1]) * 10 + (s[|s| - 1] as int - '0' as int)
  }

  function DigitChar(d: nat): (c: char)
    requires d < 10
    ensures IsDigit(c) && c as int - '0' as int == d
  {
    (d + '0' as int) as char
  }

  /** Decimal text of a whole number of seconds, as a writer of an offset
      record produces it: no sign, no leading zero. */
  function FormatNat(n: nat): (r: string)
    ensures |r| > 0 && AllDigits(r)
    ensures r[0] == '0' <==> n == 0
    ensures n == 0 ==> r == "0"
    decreases n
  {
    if n < 10 then [DigitChar(n)] else FormatNat(n / 10) + [DigitChar(n % 10)]
  }

  /** The conversion of the offset word into seconds. Only non-empty strings
      of decimal digits are accepted; the empty word (an absent or blank
      record) is the conversion's "no number here" failure. */
  function ParseOffset(text: string): (r: Result<nat>)
    ensures r == Err(OffsetMissing) <==> text == ""
    ensures r.Ok? <==> text != "" && AllDigits(text)
    ensures r.Err? && text != "" ==> r == Err(OffsetUnsupported(text))
  {
    if text == "" then Err(OffsetMissing)
    else if AllDigits(text) then Ok(DigitsValue(text))
    else Err(OffsetUnsupported(text))
  }

  lemma ParseZero()
    ensures ParseOffset("0") == Ok(0)
  {
    assert "0"[..0] == "";
  }

  lemma {:induction false} DigitsValueOfFormat(n: nat)
    ensures DigitsValue(FormatNat(n)) == n
    decreases n
  {
    var s := FormatNat(n);
    if n < 10 {
      assert s[..0] == "";
    } else {
      DigitsValueOfFormat(n / 10);
      assert s[..|s| - 1] == FormatNat(n / 10);
    }
  }

  /** A leading zero does not change the value of a digit string. */
  lemma {:induction false} LeadingZeroIgnored(t: string)
    requires AllDigits(t)
    ensures AllDigits("0" + t) && DigitsValue("0" + t) == DigitsValue(t)
    decreases |t|
  {
    var z := "0" + t;
    assert AllDigits(z) by {
      forall i | 0 <= i < |z| ensures IsDigit(z[i]) {
        if i > 0 { assert z[i] == t[i - 1]; }
      }
    }
    if |t| == 0 {
      assert z[..0] == "";
    } else {
      var prefix := t[..|t| - 1];
      assert z[..|z| - 1] == "0" + prefix;
      assert z[|z| - 1] == t[|t| - 1];
      LeadingZeroIgnored(prefix);
    }
  }

  /** Zero-padding an offset word changes neither whether it parses nor the
      number of seconds it parses to: `"03"` reads as 3, like `"3"`. */
  lemma LeadingZeroParse(t: string)
    requires |t| > 0
    ensures ParseOffset("0" + t).Ok? <==> ParseOffset(t).Ok?
    ensures ParseOffset(t).Ok? ==> ParseOffset("0" + t) == ParseOffset(t)
  {
    if AllDigits(t) {
      LeadingZeroIgnored(t);
    } else {
      var i :| 0 <= i < |t| && !IsDigit(t[i]);
      assert ("0" + t)[i + 1] == t[i];
    }
  }

  /** Parsing the text of a whole number of seconds gives that number back. */
  lemma ParseFormatRoundTrip(n: nat)
    ensures ParseOffset(FormatNat(n)) == Ok(n)
  {
    DigitsValueOfFormat(n);
  }

  lemma {:induction false} LeadingDigitPositive(s: string)
    requires |s| > 0 && AllDigits(s) && s[0] != '0'
    ensures DigitsValue(s) > 0
    decreases |s|
  {
    if |s| > 1 {
      LeadingDigitPositive(s[..|s| - 1]);
    }
  }

  /** Formatting the parsed value of a canonical digit string (no leading
      zero unless it is `"0"`) gives the same text back. */
  lemma {:induction false} FormatParseRoundTrip(text: string)
    requires ParseOffset(text).Ok?
    requires text[0] != '0' || text == "0"
    ensures FormatNat(ParseOffset(text).value) == text
    decreases |text|
  {
    var n := DigitsValue(text);
    var prefix := text[..|text| - 1];
    var last := text[|text| - 1];
    if |text| == 1 {
      assert prefix == "" && IsDigit(last);
      assert DigitsValue(prefix) == 0;
      assert n == DigitsValue(prefix) * 10 + (last as int - '0' as int);
      assert FormatNat(n) == [DigitChar(n)];
      assert DigitChar(n) as int == last as int;
    } else {
      LeadingDigitPositive(prefix);
      FormatParseRoundTrip(prefix);
      assert n / 10 == DigitsValue(prefix);
      assert n % 10 == last as int - '0' as int;
      assert DigitChar(n % 10) as int == last as int;
      assert text == prefix + [last];
    }
  }
}
