/**
 * The pure helpers of the WhatsApp chat import (`app/api/whatsapp/import/route.ts`):
 * reading a contact card (`parseVCF`), widening a two-digit year of a message
 * date, and the activity score given to an imported participant.
 */
module WhatsAppImport {
  import opened Wrappers
  import opened Text

  // ---------------------------------------------------------------- contact cards

  /** The contact `parseVCF` returns: the display name and the phone as digits. */
  datatype Contact = Contact(name: string, phone: string)

  /** `content.split('\n').map(l => l.trim())`. */
  function CardLines(content: string): (lines: seq<string>)
    ensures |lines| == |Split(content, "\n")|
    ensures forall i :: 0 <= i < |lines| ==> lines[i] == Trim(Split(content, "\n")[i])
  {
    var parts := Split(content, "\n");
    seq(|parts|, i requires 0 <= i < |parts| => Trim(parts[i]))
  }

  /** A full-name line, `FN:…`. */
  predicate IsNameLine(line: string) {
    StartsWith(line, "FN:")
  }

  /** The name a full-name line carries, trimmed. */
  function NameOf(line: string): string
    requires IsNameLine(line)
  {
    Trim(line[3..])
  }

  /** A phone line: any line starting `TEL` (`TEL:…`, `TEL;type=CELL:…`, `TEL;waid=…:…`). */
  predicate IsPhoneLine(line: string) {
    StartsWith(line, "TEL")
  }

  /** The text after the last colon of a line, trimmed. */
  function PhoneOf(line: string): (p: string)
    ensures forall j :: !OccursAt(p, ":", j)
  {
    var parts := Split(line, ":");
    var last := parts[|parts| - 1];
    SplitPartsFree(line, ":", |parts| - 1);
    TrimmedFree(last);
    Trim(last)
  }

  /** Trimming keeps a colon-free string colon-free. */
  lemma TrimmedFree(s: string)
    requires forall j :: !OccursAt(s, ":", j)
    ensures forall j :: !OccursAt(Trim(s), ":", j)
  {
    var t := Trim(s);
    var k := TrimInside(s);
    forall j
      ensures !OccursAt(t, ":", j)
    {
      if 0 <= j && j + 1 <= |t| {
        assert t[j..j + 1] == [t[j]];
        assert t[j] == s[k + j];
        assert s[k + j..k + j + 1] == [s[k + j]];
        assert !OccursAt(s, ":", k + j);
      }
    }
  }

  /** The name held after reading `lines` in order: the last full-name line wins, even an empty one. */
  function NameAfter(lines: seq<string>): string {
    if lines == [] then ""
    else if IsNameLine(lines[|lines| - 1]) then NameOf(lines[|lines| - 1])
    else NameAfter(lines[..|lines| - 1])
  }

  /** A phone line whose text after the last colon is not blank. */
  predicate GivesPhone(line: string) {
    IsPhoneLine(line) && PhoneOf(line) != ""
  }

  /** The phone held after reading `lines` in order: the last phone line with a non-blank number wins. */
  function PhoneAfter(lines: seq<string>): string {
    if lines == [] then ""
    else if GivesPhone(lines[|lines| - 1]) then PhoneOf(lines[|lines| - 1])
    else PhoneAfter(lines[..|lines| - 1])
  }

  /** What `parseVCF` returns for the read name and phone. */
  function ContactOf(name: string, phone: string): Option<Contact> {
    if phone == "" then None
    else Some(Contact(if name != "" then name else phone, DigitsOf(phone)))
  }

  /** `parseVCF` as a function of the card. */
  function CardContact(content: string): Option<Contact> {
    var lines := CardLines(content);
    ContactOf(NameAfter(lines), PhoneAfter(lines))
  }

  /** `parseVCF`: one pass over the trimmed lines, keeping the last name and the last phone. */
  method ParseVcf(content: string) returns (contact: Option<Contact>)
    ensures contact == CardContact(content)
  {
    var lines := CardLines(content);
    var name := "";
    var phone := "";
    for i := 0 to |lines|
      invariant name == NameAfter(lines[..i])
      invariant phone == PhoneAfter(lines[..i])
    {
      var line := lines[i];
      assert lines[..i + 1][..i] == lines[..i];
      if IsNameLine(line) {
        name := NameOf(line);
      }
      if IsPhoneLine(line) {
        var phonePart := PhoneOf(line);
        if phonePart != "" {
          phone := phonePart;
        }
      }
    }
    assert lines[..|lines|] == lines;
    if phone != "" {
      contact := Some(Contact(if name != "" then name else phone, DigitsOf(phone)));
    } else {
      contact := None;
    }
  }

  /** The phone is blank exactly when no line carries one. */
  lemma {:induction false} PhoneBlankIff(lines: seq<string>)
    ensures PhoneAfter(lines) == "" <==> forall i :: 0 <= i < |lines| ==> !GivesPhone(lines[i])
  {
    if lines != [] {
      var last := |lines| - 1;
      var init := lines[..last];
      PhoneBlankIff(init);
      if GivesPhone(lines[last]) {
        assert PhoneAfter(lines) == PhoneOf(lines[last]);
      } else {
        assert PhoneAfter(lines) == PhoneAfter(init);
        if PhoneAfter(init) == "" {
          forall i | 0 <= i < |lines|
            ensures !GivesPhone(lines[i])
          {
            if i < last {
              assert init[i] == lines[i];
            }
          }
        } else {
          var i :| 0 <= i < |init| && GivesPhone(init[i]);
          assert init[i] == lines[i];
        }
      }
    }
  }

  /** A phone that is not blank is the number of the last line that carries one. */
  lemma {:induction false} PhoneFromLast(lines: seq<string>) returns (i: nat)
    requires PhoneAfter(lines) != ""
    ensures i < |lines| && GivesPhone(lines[i]) && PhoneAfter(lines) == PhoneOf(lines[i])
    ensures forall j :: i < j < |lines| ==> !GivesPhone(lines[j])
  {
    var last := |lines| - 1;
    if GivesPhone(lines[last]) {
      i := last;
    } else {
      var init := lines[..last];
      i := PhoneFromLast(init);
      assert init[i] == lines[i];
      forall j | i < j < |lines|
        ensures !GivesPhone(lines[j])
      {
        if j < last {
          assert init[j] == lines[j];
        }
      }
    }
  }

  /** The name is that of the last full-name line, or blank when there is none. */
  lemma NameAfterLast(lines: seq<string>)
    ensures (forall i :: 0 <= i < |lines| ==> !IsNameLine(lines[i])) ==> NameAfter(lines) == ""
    ensures forall i :: (0 <= i < |lines| && IsNameLine(lines[i])
                         && forall j :: i < j < |lines| ==> !IsNameLine(lines[j])) ==> NameAfter(lines) == NameOf(lines[i])
  {
    if forall i :: 0 <= i < |lines| ==> !IsNameLine(lines[i]) {
      NameBlankWithout(lines);
    }
    forall i | 0 <= i < |lines| && IsNameLine(lines[i]) && forall j :: i < j < |lines| ==> !IsNameLine(lines[j])
      ensures NameAfter(lines) == NameOf(lines[i])
    {
      NameOfLastLine(lines, i);
    }
  }

  lemma {:induction false} NameBlankWithout(lines: seq<string>)
    requires forall i :: 0 <= i < |lines| ==> !IsNameLine(lines[i])
    ensures NameAfter(lines) == ""
  {
    if lines != [] {
      var init := lines[..|lines| - 1];
      forall i | 0 <= i < |init|
        ensures !IsNameLine(init[i])
      {
        assert init[i] == lines[i];
      }
      NameBlankWithout(init);
    }
  }

  lemma {:induction false} NameOfLastLine(lines: seq<string>, i: nat)
    requires i < |lines| && IsNameLine(lines[i]) && forall j :: i < j < |lines| ==> !IsNameLine(lines[j])
    ensures NameAfter(lines) == NameOf(lines[i])
  {
    if i < |lines| - 1 {
      var init := lines[..|lines| - 1];
      NameLineInInit(lines, init, i);
      NameOfLastLine(init, i);
    }
  }

  /** A full-name line before the last line is the last full-name line of the lines before the last. */
  lemma NameLineInInit(lines: seq<string>, init: seq<string>, i: nat)
    requires i < |lines| - 1 && init == lines[..|lines| - 1]
    requires IsNameLine(lines[i]) && forall j :: i < j < |lines| ==> !IsNameLine(lines[j])
    ensures IsNameLine(init[i]) && NameOf(init[i]) == NameOf(lines[i])
    ensures forall j :: i < j < |init| ==> !IsNameLine(init[j])
    ensures NameAfter(lines) == NameAfter(init)
  {
    assert init[i] == lines[i];
    assert !IsNameLine(lines[|lines| - 1]);
    forall j | i < j < |init|
      ensures !IsNameLine(init[j])
    {
      assert init[j] == lines[j];
    }
  }

  /** A card without a phone line yields nothing. */
  lemma NoPhoneLineNoContact(content: string)
    requires forall i :: 0 <= i < |CardLines(content)| ==> !IsPhoneLine(CardLines(content)[i])
    ensures CardContact(content) == None
  {
    PhoneBlankIff(CardLines(content));
  }

  /**
   * A contact carries the digits of the phone text of the last phone line,
   * which holds no colon, and the name of the last full-name line, or the raw
   * phone text when that name is blank or missing.
   */
  lemma ContactShape(content: string)
    requires CardContact(content).Some?
    ensures var lines := CardLines(content);
            var c := CardContact(content).value;
            (forall k :: 0 <= k < |c.phone| ==> IsDigit(c.phone[k]))
            && (exists i :: 0 <= i < |lines| && GivesPhone(lines[i]) && c.phone == DigitsOf(PhoneOf(lines[i]))
                            && forall j :: i < j < |lines| ==> !GivesPhone(lines[j]))
            && (NameAfter(lines) == "" ==> c.name == PhoneAfter(lines))
            && (NameAfter(lines) != "" ==> c.name == NameAfter(lines))
  {
    var lines := CardLines(content);
    var i := PhoneFromLast(lines);
    DigitsOfDigits(PhoneAfter(lines));
  }

  // ---------------------------------------------------------------- dates

  /** `if (year && year.length === 2) year = (parseInt(year) > 50 ? '19' : '20') + year`; a NaN compares false. */
  function ExpandYear(year: Option<string>): (r: Option<string>)
    ensures r.None? <==> year.None?
    ensures year.Some? && |year.value| != 2 ==> r == year
  {
    if year.Some? && |year.value| == 2 then
      var n := ParseInt(year.value);
      Some((if n.Some? && n.value > 50 then "19" else "20") + year.value)
    else year
  }

  /** A four-digit string is worth its four digits. */
  lemma FourDigits(s: string)
    requires |s| == 4
    ensures DigitsValue(s) == DigitValue(s[0]) * 1000 + DigitValue(s[1]) * 100 + DigitValue(s[2]) * 10 + DigitValue(s[3])
  {
    assert s[..3][..2] == s[..2] && s[..3][2] == s[2];
    assert s[..2][..1] == s[..1] && s[..2][1] == s[1];
    assert s[..1][..0] == [] && s[..1][0] == s[0];
    assert DigitsValue(s[..1]) == DigitValue(s[0]);
    assert DigitsValue(s[..2]) == DigitsValue(s[..1]) * 10 + DigitValue(s[1]);
    assert DigitsValue(s[..3]) == DigitsValue(s[..2]) * 10 + DigitValue(s[2]);
    assert s[..4] == s;
    assert DigitsValue(s) == DigitsValue(s[..3]) * 10 + DigitValue(s[3]);
  }

  /** `parseInt` on a string of two digits, with the value already known. */
  lemma {:induction false} AllDigitsParse(d: string, v: int)
    requires |d| == 2 && IsDigit(d[0]) && IsDigit(d[1]) && v == DigitsValue(d)
    ensures ParseInt(d) == Some(v)
  {
    assert forall k :: 0 <= k < |d| ==> IsDigit(d[k]);
    DigitsParse(d);
  }

  lemma {:induction false} TwoDigitsValue(d: string, v: int)
    requires |d| == 2 && v == DigitValue(d[0]) * 10 + DigitValue(d[1])
    ensures DigitsValue(d) == v
  {
    assert d[..1][..0] == [] && d[..1][0] == d[0];
    assert DigitsValue(d[..1]) == DigitValue(d[0]);
  }

  /** A two-digit year from 51 to 99 is of the 1900s, one from 00 to 50 of the 2000s. */
  lemma {:induction false} TwoDigitYear(year: string)
    requires |year| == 2 && IsDigit(year[0]) && IsDigit(year[1])
    ensures var v := DigitValue(year[0]) * 10 + DigitValue(year[1]);
            var r := ExpandYear(Some(year));
            r.Some? && |r.value| == 4 && r.value[2..] == year
            && DigitsValue(r.value) == (if v > 50 then 1900 + v else 2000 + v)
            && (v > 50 ==> 1951 <= DigitsValue(r.value) <= 1999)
            && (v <= 50 ==> 2000 <= DigitsValue(r.value) <= 2050)
  {
    var v := DigitValue(year[0]) * 10 + DigitValue(year[1]);
    TwoDigitsValue(year, v);
    AllDigitsParse(year, v);
    var prefix := if v > 50 then "19" else "20";
    var r := prefix + year;
    assert ExpandYear(Some(year)) == Some(r);
    FourDigits(r);
    assert r[0] == prefix[0] && r[1] == prefix[1] && r[2] == year[0] && r[3] == year[1];
    assert r[2..] == year;
  }

  // ---------------------------------------------------------------- activity

  /** `Math.min(100, messageCount * 2)`. */
  function ActivityScore(messageCount: nat): (score: int)
    ensures 0 <= score <= 100
    ensures score == 100 <==> messageCount >= 50
    ensures messageCount < 50 ==> score == 2 * messageCount
  {
    if messageCount * 2 <= 100 then messageCount * 2 else 100
  }

  /** More messages never lower the score. */
  lemma ActivityScoreMonotone(a: nat, b: nat)
    requires a <= b
    ensures ActivityScore(a) <= ActivityScore(b)
  {
  }
}
