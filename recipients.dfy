/** Recipient handling in `mcp-send-email`: the comma-separated `receivers`
    string is split on ',' with Python's `str.split` semantics, each piece is
    trimmed with `str.strip()`, and the `To` header is the pieces joined with
    ", ". The same list is the envelope's recipient list. */
module Recipients {

  const Comma := ','
  const HeaderSeparator := ", "

  /** The `From` address every message is sent from. */
  const SenderEmail := "noreply-vkhvkm"

  /** The characters Python's `str.strip()` removes: exactly those for which
      `str.isspace()` holds. */
  predicate IsSpace(c: char)
  {
    var n := c as int;
    || 0x09 <= n <= 0x0D
    || 0x1C <= n <= 0x20
    || n == 0x85 || n == 0xA0 || n == 0x1680
    || 0x2000 <= n <= 0x200A
    || n == 0x2028 || n == 0x2029 || n == 0x202F || n == 0x205F || n == 0x3000
  }

  /** Every character of `s` from index `lo` up to `hi` is whitespace. */
  predicate IsSpaceRun(s: string, lo: nat, hi: nat)
    requires lo <= hi <= |s|
  {
    forall i :: lo <= i < hi ==> IsSpace(s[i])
  }

  /** `s` ends with `suffix`. */
  predicate EndsWith(s: string, suffix: string)
  {
    |suffix| <= |s| && s[|s| - |suffix|..] == suffix
  }

  /** Neither end of `s` is whitespace. */
  predicate IsStripped(s: string)
  {
    s == [] || (!IsSpace(s[0]) && !IsSpace(s[|s| - 1]))
  }

  /** `s` without its leading whitespace: a suffix of `s` whose removed part
      is all whitespace and which does not itself start with whitespace. */
  function TrimStart(s: string): (r: string)
    ensures |r| <= |s| && r == s[|s| - |r|..]
    ensures forall i :: 0 <= i < |s| - |r| ==> IsSpace(s[i])
    ensures r == [] || !IsSpace(r[0])
    ensures s == [] || !IsSpace(s[0]) ==> r == s
  {
    if s != [] && IsSpace(s[0]) then
      var r := TrimStart(s[1..]);
      assert s[1..][|s| - 1 - |r|..] == s[|s| - |r|..];
      assert forall i :: 1 <= i < |s| - |r| ==> s[i] == s[1..][i - 1];
      r
    else s
  }

  /** `s` without its trailing whitespace: a prefix of `s` whose removed part
      is all whitespace and which does not itself end with whitespace. */
  function TrimEnd(s: string): (r: string)
    ensures |r| <= |s| && r == s[..|r|]
    ensures forall i :: |r| <= i < |s| ==> IsSpace(s[i])
    ensures r == [] || !IsSpace(r[|r| - 1])
    ensures s == [] || !IsSpace(s[|s| - 1]) ==> r == s
  {
    if s != [] && IsSpace(s[|s| - 1]) then TrimEnd(s[..|s| - 1]) else s
  }

  /** Python's `s.strip()`: the substring of `s` left once the whitespace
      before it and after it is removed. The result has no whitespace at
      either end, and a string already stripped is left alone. */
  function Strip(s: string): (r: string)
    ensures IsStripped(r)
    ensures IsStripped(s) ==> r == s
  {
    var t := TrimStart(s);
    var r := TrimEnd(t);
    if r != [] then
      assert r[0] == t[0];
      r
    else r
  }

  /** `strip()` removes whitespace at the two ends of `s` and nothing else:
      the result is the substring of `s` between a whitespace prefix and a
      whitespace suffix. */
  lemma StripExact(s: string)
    ensures exists a, b :: 0 <= a <= b <= |s| && Strip(s) == s[a..b] && IsSpaceRun(s, 0, a) && IsSpaceRun(s, b, |s|)
  {
    var t := TrimStart(s);
    var r := TrimEnd(t);
    assert Strip(s) == r;
    BetweenSpaceRuns(s, t, r);
  }

  /** A prefix `r` of a suffix `t` of `s`, where what was cut off on both
      sides is whitespace, lies between two
      whitespace runs of `s`. */
  lemma BetweenSpaceRuns(s: string, t: string, r: string)
    requires |t| <= |s| && t == s[|s| - |t|..]
    requires forall i :: 0 <= i < |s| - |t| ==> IsSpace(s[i])
    requires |r| <= |t| && r == t[..|r|]
    requires forall i :: |r| <= i < |t| ==> IsSpace(t[i])
    ensures exists a, b :: 0 <= a <= b <= |s| && r == s[a..b] && IsSpaceRun(s, 0, a) && IsSpaceRun(s, b, |s|)
  {
    var a := |s| - |t|;
    var b := a + |r|;
    assert r == s[a..b];
    assert IsSpaceRun(s, 0, a);
    assert IsSpaceRun(s, b, |s|) by {
      forall i | b <= i < |s|
        ensures IsSpace(s[i])
      {
        assert s[i] == t[i - a];
      }
    }
  }

  /** Python's `s.split(",")`: the maximal comma-free pieces between commas,
      one more than there are commas, so `""` gives `[""]`. */
  function Split(s: string): (parts: seq<string>)
    ensures |parts| >= 1
    ensures forall p :: p in parts ==> Comma !in p
  {
    if s == [] then [[]]
    else
      var rest := Split(s[1..]);
      if s[0] == Comma then [[]] + rest
      else [[s[0]] + rest[0]] + rest[1..]
  }

  /** `s.split(",")` has one more piece than `s` has commas. */
  lemma {:induction false} SplitCount(s: string)
    ensures |Split(s)| == multiset(s)[Comma] + 1
  {
    if s != [] {
      SplitCount(s[1..]);
      assert s == [s[0]] + s[1..];
    }
  }

  /** Python's `sep.join(parts)`. */
  function Join(parts: seq<string>, sep: string): string
  {
    if parts == [] then []
    else if |parts| == 1 then parts[0]
    else parts[0] + sep + Join(parts[1..], sep)
  }

  /** `[email.strip() for email in receivers.split(",")]`. */
  function ParseRecipients(receivers: string): (recipients: seq<string>)
    ensures |recipients| == |Split(receivers)|
    ensures forall i :: 0 <= i < |recipients| ==> recipients[i] == Strip(Split(receivers)[i])
    ensures forall r :: r in recipients ==> Comma !in r && IsStripped(r)
  {
    var parts := Split(receivers);
    assert forall i :: 0 <= i < |parts| ==> Comma !in parts[i];
    StripEach(parts)
  }

  /** The list comprehension applying `strip()` to every piece. */
  function StripEach(parts: seq<string>): (stripped: seq<string>)
    ensures |stripped| == |parts|
    ensures forall i :: 0 <= i < |parts| ==> stripped[i] == Strip(parts[i])
  {
    seq(|parts|, i requires 0 <= i < |parts| => Strip(parts[i]))
  }

  /** There is one recipient more than `receivers` has commas. */
  lemma RecipientCount(receivers: string)
    ensures |ParseRecipients(receivers)| == multiset(receivers)[Comma] + 1
  {
    SplitCount(receivers);
  }

  /** The number of characters in all of `parts` together. */
  function TotalLength(parts: seq<string>): nat
  {
    if parts == [] then 0 else |parts[0]| + TotalLength(parts[1..])
  }

  /** A join starts with the first part, ends with the last, and adds one
      separator between each two neighbouring parts. */
  lemma {:induction false} JoinShape(parts: seq<string>, sep: string)
    requires parts != []
    ensures parts[0] <= Join(parts, sep)
    ensures EndsWith(Join(parts, sep), parts[|parts| - 1])
    ensures |Join(parts, sep)| == TotalLength(parts) + (|parts| - 1) * |sep|
  {
    if |parts| > 1 {
      var rest := Join(parts[1..], sep);
      JoinShape(parts[1..], sep);
      var whole := parts[0] + sep + rest;
      assert whole[|whole| - |rest|..] == rest;
      assert (|parts| - 1) * |sep| == (|parts| - 2) * |sep| + |sep|;
    }
  }

  /** `', '.join(recipients)`: the value of the `To` header. */
  function ToHeader(recipients: seq<string>): string
  {
    Join(recipients, HeaderSeparator)
  }

  /** The `To` header starts with the first recipient, ends with the last,
      and holds exactly one ", " between each two neighbours. */
  lemma HeaderShape(recipients: seq<string>)
    requires recipients != []
    ensures recipients[0] <= ToHeader(recipients)
    ensures EndsWith(ToHeader(recipients), recipients[|recipients| - 1])
    ensures |ToHeader(recipients)| == TotalLength(recipients) + 2 * (|recipients| - 1)
    ensures |recipients| >= 2 ==>
      ToHeader(recipients) == recipients[0] + HeaderSeparator + ToHeader(recipients[1..])
  {
    JoinShape(recipients, HeaderSeparator);
  }

  /** The headers and envelope of the message `mcp-send-email` builds. */
  datatype Email = Email(subject: string, sender: string, to: string, recipients: seq<string>, htmlBody: string)

  /** The message built from the tool's three arguments, before it is handed
      to the mail transport. A reader who parses its `To` header again finds
      exactly the list the transport is given. */
  function Compose(subject: string, body: string, receivers: string): (m: Email)
    ensures m.sender == SenderEmail && m.subject == subject && m.htmlBody == body
    ensures m.recipients == ParseRecipients(receivers) && m.to == ToHeader(m.recipients)
    ensures |m.recipients| == multiset(receivers)[Comma] + 1
    ensures ParseRecipients(m.to) == m.recipients
  {
    var recipients := ParseRecipients(receivers);
    HeaderRoundTrip(receivers);
    RecipientCount(receivers);
    Email(subject, SenderEmail, ToHeader(recipients), recipients, body)
  }

  /** Splitting and joining with "," are inverse: `",".join(s.split(",")) == s`. */
  lemma {:induction false} JoinSplit(s: string)
    ensures Join(Split(s), [Comma]) == s
  {
    if s != [] {
      var rest := Split(s[1..]);
      JoinSplit(s[1..]);
      if s[0] == Comma {
        JoinAfterEmpty(rest, [Comma]);
        assert Split(s) == [[]] + rest;
      } else {
        JoinExtendFirst(s[0], rest, [Comma]);
        assert Split(s) == [[s[0]] + rest[0]] + rest[1..];
      }
      assert s == [s[0]] + s[1..];
    }
  }

  /** An empty first part contributes only its separator. */
  lemma JoinAfterEmpty(parts: seq<string>, sep: string)
    requires parts != []
    ensures Join([[]] + parts, sep) == sep + Join(parts, sep)
  {
    assert ([[]] + parts)[1..] == parts;
  }

  /** A character put in front of the first part is put in front of the join. */
  lemma JoinExtendFirst(c: char, parts: seq<string>, sep: string)
    requires parts != []
    ensures Join([[c] + parts[0]] + parts[1..], sep) == [c] + Join(parts, sep)
  {
    var extended := [[c] + parts[0]] + parts[1..];
    if |parts| > 1 {
      assert extended[1..] == parts[1..];
    }
  }

  /** A comma-free piece followed by a comma splits off as one part. */
  lemma {:induction false} SplitAfterComma(x: string, y: string)
    requires Comma !in x
    ensures Split(x + [Comma] + y) == [x] + Split(y)
  {
    if x == [] {
      assert x + [Comma] + y == [Comma] + y;
      assert ([Comma] + y)[1..] == y;
    } else {
      assert (x + [Comma] + y)[1..] == x[1..] + [Comma] + y;
      SplitAfterComma(x[1..], y);
      assert [x[0]] + x[1..] == x;
    }
  }

  lemma StripEachCons(x: string, q: seq<string>)
    ensures StripEach([x] + q) == [Strip(x)] + StripEach(q)
  {
    var whole := StripEach([x] + q);
    var split := [Strip(x)] + StripEach(q);
    forall i | 0 <= i < |whole|
      ensures whole[i] == split[i]
    {
      if i > 0 {
        assert ([x] + q)[i] == q[i - 1];
      }
    }
  }

  /** Leading whitespace makes no difference to `strip()`. */
  lemma StripAfterSpace(c: char, z: string)
    requires IsSpace(c)
    ensures Strip([c] + z) == Strip(z)
  {
    TrimStartAfterSpace(c, z);
  }

  lemma TrimStartAfterSpace(c: char, z: string)
    requires IsSpace(c)
    ensures TrimStart([c] + z) == TrimStart(z)
  {
    var s := [c] + z;
    assert s != [] && IsSpace(s[0]) && s[1..] == z;
  }

  /** A character other than a comma joins the first piece of the split. */
  lemma SplitAfterOther(c: char, y: string)
    requires c != Comma
    ensures Split([c] + y) == [[c] + Split(y)[0]] + Split(y)[1..]
  {
    assert ([c] + y)[1..] == y;
  }

  /** Leading whitespace makes no difference to a parse. */
  lemma ParseAfterSpace(c: char, y: string)
    requires IsSpace(c) && c != Comma
    ensures ParseRecipients([c] + y) == ParseRecipients(y)
  {
    var q := Split(y);
    SplitAfterOther(c, y);
    StripAfterSpace(c, q[0]);
    StripEachCons([c] + q[0], q[1..]);
    StripEachCons(q[0], q[1..]);
    HeadAndTail(q);
    assert ParseRecipients([c] + y) == StripEach(Split([c] + y));
  }

  /** A comma-free piece followed by a comma parses to its stripped form
      followed by the parse of the rest. */
  lemma ParseAfterComma(x: string, y: string)
    requires Comma !in x
    ensures ParseRecipients(x + [Comma] + y) == [Strip(x)] + ParseRecipients(y)
  {
    SplitAfterComma(x, y);
    StripEachCons(x, Split(y));
    assert ParseRecipients(x + [Comma] + y) == StripEach(Split(x + [Comma] + y));
  }

  /** The header of two or more recipients: the first, a comma, a space,
      then the header of the others. */
  lemma ToHeaderCons(recipients: seq<string>)
    requires |recipients| >= 2
    ensures ToHeader(recipients) == recipients[0] + [Comma] + ([' '] + ToHeader(recipients[1..]))
  {
    var rest := ToHeader(recipients[1..]);
    assert ToHeader(recipients) == recipients[0] + HeaderSeparator + rest;
    assert HeaderSeparator == [Comma] + [' '];
  }

  /** A comma-free, stripped string parses to itself alone. */
  lemma ParseClean(x: string)
    requires Comma !in x && IsStripped(x)
    ensures ParseRecipients(x) == [x]
  {
    SplitNoComma(x);
    assert StripEach([x]) == [Strip(x)];
  }

  /** Every recipient is comma-free and stripped. */
  predicate AllClean(recipients: seq<string>)
  {
    forall i :: 0 <= i < |recipients| ==> Comma !in recipients[i] && IsStripped(recipients[i])
  }

  /** Parsing a header of two or more recipients: the first, stripped, then
      the parse of the header of the others. */
  lemma ParseHeaderStep(recipients: seq<string>)
    requires |recipients| >= 2 && AllClean(recipients)
    ensures ParseRecipients(ToHeader(recipients)) == [recipients[0]] + ParseRecipients(ToHeader(recipients[1..]))
  {
    var rest := ToHeader(recipients[1..]);
    ToHeaderCons(recipients);
    ParseAfterComma(recipients[0], [' '] + rest);
    ParseAfterSpace(' ', rest);
  }

  lemma ParseSingleHeader(recipients: seq<string>)
    requires |recipients| == 1 && AllClean(recipients)
    ensures ParseRecipients(ToHeader(recipients)) == recipients
  {
    ParseClean(recipients[0]);
  }

  lemma AllCleanTail(recipients: seq<string>)
    requires recipients != [] && AllClean(recipients)
    ensures AllClean(recipients[1..])
  {
    var tail := recipients[1..];
    forall i | 0 <= i < |tail| ensures Comma !in tail[i] && IsStripped(tail[i]) {
      assert tail[i] == recipients[i + 1];
    }
  }

  /** Joining stripped, comma-free recipients with ", " and parsing the result
      gives them back. */
  lemma {:induction false} ParseToHeader(recipients: seq<string>)
    requires |recipients| >= 1 && AllClean(recipients)
    ensures ParseRecipients(ToHeader(recipients)) == recipients
  {
    if |recipients| == 1 {
      ParseSingleHeader(recipients);
    } else {
      ParseHeaderStep(recipients);
      AllCleanTail(recipients);
      ParseToHeader(recipients[1..]);
      HeadAndTail(recipients);
    }
  }

  /** A non-empty list is its head followed by its tail. */
  lemma HeadAndTail(s: seq<string>)
    requires s != []
    ensures s == [s[0]] + s[1..]
  {
  }

  /** A comma-free string splits into itself alone. */
  lemma {:induction false} SplitNoComma(s: string)
    requires Comma !in s
    ensures Split(s) == [s]
  {
    if s != [] {
      assert s[1..] + [] == s[1..];
      SplitNoComma(s[1..]);
      assert [s[0]] + s[1..] == s;
    }
  }

  /** The `To` header round trip: parsing the header built from the parsed
      recipients yields the same recipients, so parse . join . parse == parse. */
  lemma HeaderRoundTrip(receivers: string)
    ensures ParseRecipients(ToHeader(ParseRecipients(receivers))) == ParseRecipients(receivers)
  {
    var recipients := ParseRecipients(receivers);
    assert AllClean(recipients) by {
      forall i | 0 <= i < |recipients| ensures Comma !in recipients[i] && IsStripped(recipients[i]) {
        assert recipients[i] in recipients;
      }
    }
    ParseToHeader(recipients);
  }

  /** Two commas in a row give an empty recipient between them:
      `"a,,b"` parses to `["a", "", "b"]`. */
  lemma EmptyBetweenCommas(x: string, y: string)
    requires Comma !in x && IsStripped(x)
    requires Comma !in y && IsStripped(y)
    ensures ParseRecipients(x + [Comma, Comma] + y) == [x, [], y]
  {
    assert x + [Comma, Comma] + y == x + [Comma] + ([Comma] + y);
    ParseAfterComma(x, [Comma] + y);
    assert [Comma] + y == [] + [Comma] + y;
    ParseAfterComma([], y);
    ParseClean(y);
  }

  /** The empty receivers string gives one empty recipient, not none. */
  lemma EmptyReceivers()
    ensures ParseRecipients("") == [""]
  {
  }
}
