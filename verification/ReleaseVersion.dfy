/** Versions as the release tool prints, parses and compares them (misc/releaser.py). */
module ReleaseVersion {
  import opened Wrappers

  datatype PreKind = Alpha | Beta | Candidate
  datatype Prerelease = Prerelease(kind: PreKind, index: nat)

  datatype Version = Version(
    major: nat, minor: nat, patch: nat, pre: Option<Prerelease>, dev: Option<nat>, local: Option<string>)

  // ---------- characters and numbers ----------

  predicate IsDigit(c: char) { '0' <= c <= '9' }

  predicate IsAlnum(c: char) { IsDigit(c) || 'a' <= c <= 'z' }

  predicate IsSeparator(c: char) { c == '-' || c == '_' || c == '.' }

  /** What `str.strip` removes. */
  predicate IsSpace(c: char)
  {
    var code := c as int;
    || 0x09 <= code <= 0x0d || 0x1c <= code <= 0x20 || code == 0x85 || code == 0xa0 || code == 0x1680
    || 0x2000 <= code <= 0x200a || code == 0x2028 || code == 0x2029 || code == 0x202f || code == 0x205f
    || code == 0x3000
  }

  /** The length of the longest run of digits at the front. */
  function Digits(s: string): (n: nat)
    ensures n <= |s| && AllDigits(s[..n]) && (n < |s| ==> !IsDigit(s[n]))
  {
    if s != "" && IsDigit(s[0]) then 1 + Digits(s[1..]) else 0
  }

  predicate AllDigits(s: string) { forall i | 0 <= i < |s| :: IsDigit(s[i]) }

  function Value(digits: string): nat
    requires AllDigits(digits)
  {
    if digits == "" then 0
    else Value(digits[..|digits| - 1]) * 10 + (digits[|digits| - 1] as int - '0' as int)
  }

  function Decimal(n: nat): string
  {
    if n < 10 then [('0' as int + n) as char] else Decimal(n / 10) + [('0' as int + n % 10) as char]
  }

  lemma {:induction false} DecimalIsNumber(n: nat)
    ensures |Decimal(n)| > 0 && AllDigits(Decimal(n)) && Value(Decimal(n)) == n
  {
    if n >= 10 { DecimalIsNumber(n / 10); }
  }

  lemma {:induction false} DigitsOfRun(digits: string, rest: string)
    requires AllDigits(digits) && (rest == "" || !IsDigit(rest[0]))
    ensures Digits(digits + rest) == |digits|
  {
    if digits != "" {
      assert (digits + rest)[1..] == digits[1..] + rest;
      DigitsOfRun(digits[1..], rest);
    } else {
      assert digits + rest == rest;
    }
  }

  /** `[a-z0-9]+([-_.][a-z0-9]+)*`, to the end of the text. */
  predicate IsLocal(s: string) { s != "" && IsAlnum(s[0]) && IsLocalRest(s[1..]) }

  predicate IsLocalRest(s: string)
  {
    || s == ""
    || (IsAlnum(s[0]) && IsLocalRest(s[1..]))
    || (IsSeparator(s[0]) && |s| > 1 && IsAlnum(s[1]) && IsLocalRest(s[2..]))
  }

  ghost predicate WellFormed(v: Version) { v.local.Some? ==> IsLocal(v.local.value) }

  // ---------- printing ----------

  function KindText(kind: PreKind): string
  {
    match kind case Alpha => "a" case Beta => "b" case Candidate => "rc"
  }

  /** `__str__`. */
  function Print(v: Version): string
  {
    var base := Decimal(v.major) + "." + Decimal(v.minor) + "." + Decimal(v.patch);
    var sep := if v.pre.Some? then "." else "-";
    base
    + (if v.pre.Some? then "-" + KindText(v.pre.value.kind) + "." + Decimal(v.pre.value.index) else "")
    + (if v.dev.Some? then sep + "dev." + Decimal(v.dev.value) else "")
    + (if v.local.Some? then "+" + v.local.value else "")
  }

  // ---------- parsing ----------

  function StripLeft(s: string): string
  {
    if s != "" && IsSpace(s[0]) then StripLeft(s[1..]) else s
  }

  function StripRight(s: string): string
  {
    if s != "" && IsSpace(s[|s| - 1]) then StripRight(s[..|s| - 1]) else s
  }

  function WithoutV(s: string): string { if s != "" && s[0] == 'v' then s[1..] else s }

  datatype DevTail = DevTail(dev: Option<nat>, local: Option<string>)
  datatype PreTail = PreTail(pre: Option<Prerelease>, dev: Option<nat>, local: Option<string>)

  /** `(\+local)?$` */
  function LocalPart(s: string): Option<Option<string>>
  {
    if s == "" then Some(None)
    else if s[0] == '+' && IsLocal(s[1..]) then Some(Some(s[1..]))
    else None
  }

  /** `[0-9]+` of the development group and what follows; no shorter run of digits can do. */
  function DevNumber(s: string): Option<DevTail>
  {
    var n := Digits(s);
    var local := LocalPart(s[n..]);
    if n > 0 && local.Some? then Some(DevTail(Some(Value(s[..n])), local.value)) else None
  }

  /** `(.dev\.[0-9]+)?`, whose first dot is not escaped and stands for any character of the line; the
      group is tried before it is left out. */
  function DevPart(s: string): Option<DevTail>
  {
    var tail := if |s| >= 5 && s[0] != '\n' && s[1..5] == "dev." then DevNumber(s[5..]) else None;
    if tail.Some? then tail
    else
      var local := LocalPart(s);
      if local.Some? then Some(DevTail(None, local.value)) else None
  }

  /** The digits of the pre-release: `n` of them, then fewer. */
  function PreDigits(kind: PreKind, s: string, n: nat): Option<PreTail>
    requires n <= |s| && AllDigits(s[..n])
  {
    if n == 0 then None
    else
      var tail := DevPart(s[n..]);
      if tail.Some? then Some(PreTail(Some(Prerelease(kind, Value(s[..n]))), tail.value.dev, tail.value.local))
      else assert s[..n - 1] == s[..n][..n - 1]; PreDigits(kind, s, n - 1)
  }

  /** `\.?[0-9]+` and what follows. */
  function PreNumber(kind: PreKind, s: string): Option<PreTail>
  {
    var digits := if s != "" && s[0] == '.' then s[1..] else s;
    PreDigits(kind, digits, Digits(digits))
  }

  /** `(-(a|b|rc)\.?[0-9]+)?` and what follows. */
  function PrePart(s: string): Option<PreTail>
  {
    var tail :=
      if |s| >= 2 && s[..2] == "-a" then PreNumber(Alpha, s[2..])
      else if |s| >= 2 && s[..2] == "-b" then PreNumber(Beta, s[2..])
      else if |s| >= 3 && s[..3] == "-rc" then PreNumber(Candidate, s[3..])
      else None;
    if tail.Some? then tail
    else
      var tail := DevPart(s);
      if tail.Some? then Some(PreTail(None, tail.value.dev, tail.value.local)) else None
  }

  /** The digits of the patch number: `n` of them, then fewer. */
  function PatchDigits(major: nat, minor: nat, s: string, n: nat): Option<Version>
    requires n <= |s| && AllDigits(s[..n])
  {
    if n == 0 then None
    else
      var tail := PrePart(s[n..]);
      if tail.Some? then
        Some(Version(major, minor, Value(s[..n]), tail.value.pre, tail.value.dev, tail.value.local))
      else assert s[..n - 1] == s[..n][..n - 1]; PatchDigits(major, minor, s, n - 1)
  }

  /** `major.minor.patch` and what follows. */
  function ReleasePart(s: string): Option<Version>
  {
    var a := Digits(s);
    if a == 0 || a == |s| || s[a] != '.' then None
    else
      var t := s[a + 1..];
      var b := Digits(t);
      if b == 0 || b == |t| || t[b] != '.' then None
      else PatchDigits(Value(s[..a]), Value(t[..b]), t[b + 1..], Digits(t[b + 1..]))
  }

  /** `Version.parse`; None is its ValueError. */
  function Parse(raw: string): Option<Version>
  {
    ReleasePart(WithoutV(WithoutV(StripRight(StripLeft(raw)))))
  }

  // ---------- the language ----------

  datatype PreParts = PreParts(kind: PreKind, dot: bool, digits: string)
  datatype DevParts = DevParts(any: char, digits: string)

  /** One way to read a text as a version. */
  datatype Parts = Parts(
    major: string, minor: string, patch: string, pre: Option<PreParts>, dev: Option<DevParts>, local: Option<string>)

  predicate IsNumber(digits: string) { digits != "" && AllDigits(digits) }

  ghost predicate IsReading(p: Parts)
  {
    && IsNumber(p.major) && IsNumber(p.minor) && IsNumber(p.patch)
    && (p.pre.Some? ==> IsNumber(p.pre.value.digits))
    && (p.dev.Some? ==> IsNumber(p.dev.value.digits) && p.dev.value.any != '\n')
    && (p.local.Some? ==> IsLocal(p.local.value))
  }

  function PreText(pre: Option<PreParts>): string
  {
    if pre.None? then ""
    else "-" + KindText(pre.value.kind) + (if pre.value.dot then "." else "") + pre.value.digits
  }

  function DevText(dev: Option<DevParts>): string
  {
    if dev.None? then "" else [dev.value.any] + "dev." + dev.value.digits
  }

  function LocalText(local: Option<string>): string { if local.None? then "" else "+" + local.value }

  function TailText(dev: Option<DevParts>, local: Option<string>): string { DevText(dev) + LocalText(local) }

  function Text(p: Parts): string
  {
    p.major + "." + (p.minor + "." + (p.patch + (PreText(p.pre) + TailText(p.dev, p.local))))
  }

  function DevMeaning(dev: Option<DevParts>): Option<nat>
    requires dev.Some? ==> AllDigits(dev.value.digits)
  {
    if dev.None? then None else Some(Value(dev.value.digits))
  }

  function PreMeaning(pre: Option<PreParts>): Option<Prerelease>
    requires pre.Some? ==> AllDigits(pre.value.digits)
  {
    if pre.None? then None else Some(Prerelease(pre.value.kind, Value(pre.value.digits)))
  }

  ghost function Meaning(p: Parts): Version
    requires IsReading(p)
  {
    Version(Value(p.major), Value(p.minor), Value(p.patch), PreMeaning(p.pre), DevMeaning(p.dev), p.local)
  }

  /** A local part that the unescaped dot lets pass for a development number. */
  predicate LooksLikeDev(local: Option<string>)
  {
    && local.Some? && |local.value| > 4 && local.value[..4] == "dev." && AllDigits(local.value[4..])
  }

  /** The one ambiguity of the expression. */
  ghost predicate IsPreferred(p: Parts) { p.dev.None? ==> !LooksLikeDev(p.local) }

  lemma DevTextConcat(dev: DevParts, local: string)
    ensures DevText(Some(dev)) + local == [dev.any] + ("dev." + (dev.digits + local))
  {
  }

  lemma PreTextConcat(pre: PreParts, tail: string)
    ensures PreText(Some(pre)) + tail
            == "-" + KindText(pre.kind) + ((if pre.dot then "." else "") + (pre.digits + tail))
  {
  }

  lemma LocalTextParses(local: Option<string>)
    requires local.Some? ==> IsLocal(local.value)
    ensures LocalPart(LocalText(local)) == Some(local)
  {
  }

  lemma DevNumberParses(digits: string, local: Option<string>)
    requires IsNumber(digits) && (local.Some? ==> IsLocal(local.value))
    ensures DevNumber(digits + LocalText(local)) == Some(DevTail(Some(Value(digits)), local))
  {
    var s := digits + LocalText(local);
    LocalTextParses(local);
    DigitsOfRun(digits, LocalText(local));
    assert s[..|digits|] == digits && s[|digits|..] == LocalText(local);
  }

  lemma DevTextParses(dev: DevParts, local: Option<string>)
    requires IsNumber(dev.digits) && dev.any != '\n' && (local.Some? ==> IsLocal(local.value))
    ensures DevPart(TailText(Some(dev), local)) == Some(DevTail(Some(Value(dev.digits)), local))
  {
    hide DevPart, DevNumber, LocalText, DevText;
    DevNumberParses(dev.digits, local);
    DevTextConcat(dev, LocalText(local));
    DevGroupIsRead(dev.any, dev.digits + LocalText(local));
  }

  lemma DevGroupIsRead(any: char, rest: string)
    requires any != '\n' && DevNumber(rest).Some?
    ensures DevPart([any] + ("dev." + rest)) == DevNumber(rest)
  {
    hide DevNumber, LocalPart;
    var s := [any] + ("dev." + rest);
    assert s[1..5] == "dev." && s[5..] == rest;
  }

  lemma DevNumberNeedsPlus(s: string)
    requires '+' !in s
    ensures DevNumber(s).Some? ==> IsNumber(s)
  {
  }

  lemma NoDevTextParses(local: Option<string>)
    requires !LooksLikeDev(local) && (local.Some? ==> IsLocal(local.value))
    ensures DevPart(LocalText(local)) == Some(DevTail(None, local))
  {
    var s := LocalText(local);
    LocalTextParses(local);
    hide DevNumber, LocalPart;
    if |s| >= 5 && s[1..5] == "dev." {
      assert s[1..] == local.value && local.value[..4] == "dev." && s[5..] == local.value[4..];
      LocalHasNoPlus(local.value);
      DevNumberNeedsPlus(local.value[4..]);
    }
  }

  lemma {:induction false} RestHasNoPlus(s: string)
    requires IsLocalRest(s)
    ensures forall i | 0 <= i < |s| :: IsAlnum(s[i]) || IsSeparator(s[i])
    ensures s != "" ==> IsAlnum(s[|s| - 1])
  {
    if s == "" {
    } else if IsAlnum(s[0]) && IsLocalRest(s[1..]) {
      RestHasNoPlus(s[1..]);
    } else {
      RestHasNoPlus(s[2..]);
      forall i | 0 <= i < |s| ensures IsAlnum(s[i]) || IsSeparator(s[i]) {
        if i >= 2 { assert s[i] == s[2..][i - 2]; }
      }
    }
  }

  lemma LocalHasNoPlus(local: string)
    requires IsLocal(local)
    ensures forall i | 0 <= i < |local| :: IsAlnum(local[i]) || IsSeparator(local[i])
    ensures IsAlnum(local[|local| - 1])
  {
    RestHasNoPlus(local[1..]);
  }

  lemma TailTextParses(dev: Option<DevParts>, local: Option<string>)
    requires dev.Some? ==> IsNumber(dev.value.digits) && dev.value.any != '\n'
    requires local.Some? ==> IsLocal(local.value)
    requires dev.None? ==> !LooksLikeDev(local)
    ensures DevPart(TailText(dev, local)) == Some(DevTail(DevMeaning(dev), local))
  {
    if dev.Some? {
      DevTextParses(dev.value, local);
    } else {
      assert TailText(dev, local) == LocalText(local);
      NoDevTextParses(local);
    }
  }

  /** One digit too many leaves nothing that matches. */
  lemma TruncatedTailFails(rest: string)
    ensures DevPart("dev." + rest).None? && PrePart("dev." + rest).None?
  {
  }

  ghost predicate TailIsReading(dev: Option<DevParts>, local: Option<string>)
  {
    && (dev.Some? ==> IsNumber(dev.value.digits) && dev.value.any != '\n')
    && (local.Some? ==> IsLocal(local.value))
    && (dev.None? ==> !LooksLikeDev(local))
  }

  lemma RunBeforeDigit(digits: string, dev: DevParts, local: Option<string>)
    requires IsNumber(digits) && IsDigit(dev.any)
    ensures var s := digits + TailText(Some(dev), local);
            Digits(s) == |digits| + 1 && s[|digits| + 1..] == "dev." + (dev.digits + LocalText(local))
  {
    hide Digits, LocalText, DevText;
    var run, rest := digits + [dev.any], "dev." + (dev.digits + LocalText(local));
    DigitsOfRun(run, rest);
    DevTextConcat(dev, LocalText(local));
    assert digits + ([dev.any] + rest) == run + rest;
  }

  /** How far a run of digits before a tail is read: the unescaped dot may take one more digit. */
  lemma RunBeforeTail(digits: string, dev: Option<DevParts>, local: Option<string>)
    requires IsNumber(digits)
    ensures var s := digits + TailText(dev, local);
            if dev.Some? && IsDigit(dev.value.any)
            then Digits(s) == |digits| + 1 && s[|digits| + 1..] == "dev." + (dev.value.digits + LocalText(local))
            else Digits(s) == |digits|
  {
    if dev.Some? && IsDigit(dev.value.any) {
      RunBeforeDigit(digits, dev.value, local);
    } else {
      DigitsOfRun(digits, TailText(dev, local));
    }
  }

  lemma PreDigitsParses(kind: PreKind, digits: string, dev: Option<DevParts>, local: Option<string>)
    requires IsNumber(digits) && TailIsReading(dev, local)
    ensures var s := digits + TailText(dev, local);
            PreDigits(kind, s, Digits(s))
              == Some(PreTail(Some(Prerelease(kind, Value(digits))), DevMeaning(dev), local))
  {
    var tail := TailText(dev, local);
    var s := digits + tail;
    RunBeforeTail(digits, dev, local);
    TailTextParses(dev, local);
    assert s[..|digits|] == digits && s[|digits|..] == tail;
    if dev.Some? && IsDigit(dev.value.any) {
      TruncatedTailFails(dev.value.digits + LocalText(local));
    }
  }

  lemma PreTextParses(pre: PreParts, dev: Option<DevParts>, local: Option<string>)
    requires IsNumber(pre.digits) && TailIsReading(dev, local)
    ensures PrePart(PreText(Some(pre)) + TailText(dev, local))
            == Some(PreTail(PreMeaning(Some(pre)), DevMeaning(dev), local))
  {
    hide DevPart, TailText, PreDigits;
    var number := pre.digits + TailText(dev, local);
    PreDigitsParses(pre.kind, pre.digits, dev, local);
    DotIsOptional(pre, number);
    KindIsRead(pre.kind, (if pre.dot then "." else "") + number);
    PreTextConcat(pre, TailText(dev, local));
  }

  lemma DotIsOptional(pre: PreParts, number: string)
    requires number != "" && IsDigit(number[0])
    ensures PreNumber(pre.kind, (if pre.dot then "." else "") + number) == PreDigits(pre.kind, number, Digits(number))
  {
    assert ("." + number)[1..] == number && "" + number == number;
  }

  lemma KindIsRead(kind: PreKind, rest: string)
    requires PreNumber(kind, rest).Some?
    ensures PrePart("-" + KindText(kind) + rest) == PreNumber(kind, rest)
  {
    hide PreNumber, DevPart;
    var s := "-" + KindText(kind) + rest;
    assert s[..2] == ['-', KindText(kind)[0]];
    assert s[1 + |KindText(kind)|..] == rest;
    if kind.Candidate? { assert s[..3] == "-rc"; }
  }

  lemma NoPreTextParses(dev: Option<DevParts>, local: Option<string>)
    requires TailIsReading(dev, local)
    ensures PrePart(TailText(dev, local)) == Some(PreTail(None, DevMeaning(dev), local))
  {
    var s := TailText(dev, local);
    TailTextParses(dev, local);
    if dev.Some? { DevTextConcat(dev.value, LocalText(local)); }
    NoPreStart(s);
  }

  /** Without a letter of a pre-release after the dash, the group is left out. */
  lemma NoPreStart(s: string)
    requires |s| >= 2 ==> s[0] != '-' || s[1] == 'd'
    ensures var tail := DevPart(s);
            PrePart(s) == if tail.Some? then Some(PreTail(None, tail.value.dev, tail.value.local)) else None
  {
    hide DevPart, PreNumber;
    assert |s| >= 2 ==> s[..2][0] == s[0] && s[..2][1] == s[1];
    assert |s| >= 3 ==> s[..3][0] == s[0] && s[..3][1] == s[1];
  }

  lemma PreAndTailParse(pre: Option<PreParts>, dev: Option<DevParts>, local: Option<string>)
    requires (pre.Some? ==> IsNumber(pre.value.digits)) && TailIsReading(dev, local)
    ensures PrePart(PreText(pre) + TailText(dev, local)) == Some(PreTail(PreMeaning(pre), DevMeaning(dev), local))
  {
    if pre.Some? {
      PreTextParses(pre.value, dev, local);
    } else {
      NoPreTextParses(dev, local);
      assert PreText(pre) + TailText(dev, local) == TailText(dev, local);
    }
  }

  lemma PatchParses(major: nat, minor: nat, p: Parts)
    requires IsReading(p) && IsPreferred(p)
    ensures var s := p.patch + (PreText(p.pre) + TailText(p.dev, p.local));
            PatchDigits(major, minor, s, Digits(s))
            == Some(Version(major, minor, Value(p.patch), PreMeaning(p.pre), DevMeaning(p.dev), p.local))
  {
    hide PrePart;
    var tail := PreText(p.pre) + TailText(p.dev, p.local);
    var s := p.patch + tail;
    PreAndTailParse(p.pre, p.dev, p.local);
    assert s[..|p.patch|] == p.patch && s[|p.patch|..] == tail;
    if p.pre.Some? {
      DigitsOfRun(p.patch, tail);
    } else {
      assert tail == TailText(p.dev, p.local);
      RunBeforeTail(p.patch, p.dev, p.local);
      if p.dev.Some? && IsDigit(p.dev.value.any) {
        TruncatedTailFails(p.dev.value.digits + LocalText(p.local));
      }
    }
  }

  /** Every preferred reading of a text is what the parser returns for that text. */
  lemma ReadingParses(p: Parts)
    requires IsReading(p) && IsPreferred(p)
    ensures ReleasePart(Text(p)) == Some(Meaning(p))
  {
    hide PatchDigits, TailText, PreText;
    var u := p.patch + (PreText(p.pre) + TailText(p.dev, p.local));
    var t := p.minor + "." + u;
    var s := Text(p);
    assert s == p.major + ("." + t) && t == p.minor + ("." + u);
    DigitsOfRun(p.major, "." + t);
    DigitsOfRun(p.minor, "." + u);
    assert s[..|p.major|] == p.major && s[|p.major| + 1..] == t;
    assert t[..|p.minor|] == p.minor && t[|p.minor| + 1..] == u;
    PatchParses(Value(p.major), Value(p.minor), p);
  }

  /** A text whose local part looks like a development number has a preferred reading as well. */
  lemma OtherReading(p: Parts) returns (q: Parts)
    requires IsReading(p) && !IsPreferred(p)
    ensures q == p.(dev := Some(DevParts('+', p.local.value[4..])), local := None)
    ensures IsReading(q) && IsPreferred(q) && Text(q) == Text(p)
  {
    q := p.(dev := Some(DevParts('+', p.local.value[4..])), local := None);
    assert "+" + p.local.value == ['+'] + "dev." + p.local.value[4..];
    assert TailText(q.dev, q.local) == TailText(p.dev, p.local);
  }

  lemma LocalReading(s: string)
    requires LocalPart(s).Some?
    ensures var local := LocalPart(s).value; (local.Some? ==> IsLocal(local.value)) && LocalText(local) == s
  {
  }

  lemma DevNumberReading(s: string) returns (digits: string)
    requires DevNumber(s).Some?
    ensures var tail := DevNumber(s).value;
            && IsNumber(digits) && digits + LocalText(tail.local) == s && tail.dev == Some(Value(digits))
            && (tail.local.Some? ==> IsLocal(tail.local.value))
  {
    var n := Digits(s);
    digits := s[..n];
    LocalReading(s[n..]);
  }

  ghost predicate StartsDev(s: string) { |s| >= 5 && s[0] != '\n' && s[1..5] == "dev." && DevNumber(s[5..]).Some? }

  lemma DevGroupReading(s: string) returns (dev: DevParts)
    requires StartsDev(s)
    ensures var tail := DevNumber(s[5..]).value;
            && TailIsReading(Some(dev), tail.local) && TailText(Some(dev), tail.local) == s
            && tail.dev == Some(Value(dev.digits))
  {
    hide DevNumber, DevText, LocalText, IsLocal, Value;
    var digits := DevNumberReading(s[5..]);
    dev := DevParts(s[0], digits);
    DevTextConcat(dev, LocalText(DevNumber(s[5..]).value.local));
    assert s == [s[0]] + (s[1..5] + s[5..]);
  }

  lemma NoDevGroupReading(s: string)
    requires LocalPart(s).Some? && !StartsDev(s)
    ensures TailIsReading(None, LocalPart(s).value) && TailText(None, LocalPart(s).value) == s
  {
  }

  lemma DevReading(s: string) returns (dev: Option<DevParts>)
    requires DevPart(s).Some?
    ensures var tail := DevPart(s).value;
            TailIsReading(dev, tail.local) && TailText(dev, tail.local) == s && DevMeaning(dev) == tail.dev
  {
    hide DevNumber, LocalPart, IsLocal, Value, TailText, TailIsReading;
    if StartsDev(s) {
      var group := DevGroupReading(s);
      dev := Some(group);
    } else {
      dev := None;
      NoDevGroupReading(s);
    }
  }

  lemma {:induction false} PreDigitsReading(kind: PreKind, s: string, n: nat) returns (k: nat, dev: Option<DevParts>)
    requires n <= |s| && AllDigits(s[..n]) && PreDigits(kind, s, n).Some?
    ensures 0 < k <= n && AllDigits(s[..k])
    ensures var tail := PreDigits(kind, s, n).value;
            && TailIsReading(dev, tail.local) && TailText(dev, tail.local) == s[k..]
            && DevMeaning(dev) == tail.dev && tail.pre == Some(Prerelease(kind, Value(s[..k])))
  {
    hide DevPart, TailText, TailIsReading, Value;
    if DevPart(s[n..]).Some? {
      k := n;
      dev := DevReading(s[n..]);
    } else {
      assert s[..n - 1] == s[..n][..n - 1];
      k, dev := PreDigitsReading(kind, s, n - 1);
    }
  }

  lemma PreNumberReading(kind: PreKind, s: string) returns (pre: PreParts, dev: Option<DevParts>)
    requires PreNumber(kind, s).Some?
    ensures var tail := PreNumber(kind, s).value;
            && IsNumber(pre.digits) && TailIsReading(dev, tail.local)
            && PreText(Some(pre)) + TailText(dev, tail.local) == "-" + KindText(kind) + s
            && PreMeaning(Some(pre)) == tail.pre && DevMeaning(dev) == tail.dev
  {
    hide DevPart, PreDigits, Digits, TailText, KindText, PreText;
    var dot := s != "" && s[0] == '.';
    var number := if dot then s[1..] else s;
    var k;
    k, dev := PreDigitsReading(kind, number, Digits(number));
    pre := PreParts(kind, dot, number[..k]);
    PreTextConcat(pre, number[k..]);
    assert number[..k] + number[k..] == number;
    assert s == (if dot then "." else "") + number;
  }

  lemma PreReading(s: string) returns (pre: Option<PreParts>, dev: Option<DevParts>)
    requires PrePart(s).Some?
    ensures var tail := PrePart(s).value;
            && (pre.Some? ==> IsNumber(pre.value.digits)) && TailIsReading(dev, tail.local)
            && PreText(pre) + TailText(dev, tail.local) == s
            && PreMeaning(pre) == tail.pre && DevMeaning(dev) == tail.dev
  {
    hide DevPart, PreNumber;
    var some: PreParts;
    if |s| >= 2 && s[..2] == "-a" && PreNumber(Alpha, s[2..]).Some? {
      assert s == "-" + KindText(Alpha) + s[2..];
      some, dev := PreNumberReading(Alpha, s[2..]);
      pre := Some(some);
    } else if |s| >= 2 && s[..2] == "-b" && PreNumber(Beta, s[2..]).Some? {
      assert s == "-" + KindText(Beta) + s[2..];
      some, dev := PreNumberReading(Beta, s[2..]);
      pre := Some(some);
    } else if |s| >= 3 && s[..3] == "-rc" && PreNumber(Candidate, s[3..]).Some? {
      assert s == "-" + KindText(Candidate) + s[3..];
      assert s[..2] == s[..3][..2];
      some, dev := PreNumberReading(Candidate, s[3..]);
      pre := Some(some);
    } else {
      pre := None;
      dev := DevReading(s);
    }
  }

  lemma {:induction false} PatchReading(major: nat, minor: nat, s: string, n: nat)
    returns (k: nat, pre: Option<PreParts>, dev: Option<DevParts>)
    requires n <= |s| && AllDigits(s[..n]) && PatchDigits(major, minor, s, n).Some?
    ensures 0 < k <= n && AllDigits(s[..k]) && (pre.Some? ==> IsNumber(pre.value.digits))
    ensures var v := PatchDigits(major, minor, s, n).value;
            && TailIsReading(dev, v.local) && PreText(pre) + TailText(dev, v.local) == s[k..]
            && v == Version(major, minor, Value(s[..k]), PreMeaning(pre), DevMeaning(dev), v.local)
  {
    hide PrePart;
    if PrePart(s[n..]).Some? {
      k := n;
      pre, dev := PreReading(s[n..]);
    } else {
      assert s[..n - 1] == s[..n][..n - 1];
      k, pre, dev := PatchReading(major, minor, s, n - 1);
    }
  }

  /** What the parser returns is a preferred reading of the text. */
  lemma ParsedIsReading(s: string) returns (p: Parts)
    requires ReleasePart(s).Some?
    ensures IsReading(p) && IsPreferred(p) && Text(p) == s && Meaning(p) == ReleasePart(s).value
  {
    hide ReleasePart, PatchDigits, Digits, TailText, PreText, Text, Value, AllDigits, IsLocal, LooksLikeDev;
    var major, minor, u := ReleaseSplits(s);
    var k, pre, dev := PatchReading(Value(major), Value(minor), u, Digits(u));
    p := Parts(major, minor, u[..k], pre, dev, ReleasePart(s).value.local);
    TextConcat(p, u);
  }

  lemma TextConcat(p: Parts, u: string)
    requires |p.patch| <= |u| && p.patch == u[..|p.patch|]
    requires PreText(p.pre) + TailText(p.dev, p.local) == u[|p.patch|..]
    ensures Text(p) == p.major + "." + (p.minor + "." + u)
  {
  }

  lemma ReleaseSplits(s: string) returns (major: string, minor: string, u: string)
    requires ReleasePart(s).Some?
    ensures IsNumber(major) && IsNumber(minor) && s == major + "." + (minor + "." + u)
    ensures ReleasePart(s) == PatchDigits(Value(major), Value(minor), u, Digits(u))
  {
    hide PatchDigits, Value, Digits, AllDigits;
    var a := Digits(s);
    var t := s[a + 1..];
    var b := Digits(t);
    major, minor, u := s[..a], t[..b], t[b + 1..];
    DotSplits(s, a);
    DotSplits(t, b);
  }

  lemma DotSplits(s: string, n: nat)
    requires n < |s| && s[n] == '.'
    ensures s == s[..n] + "." + s[n + 1..]
  {
  }

  /** The parser computes the expression: it returns a version exactly for a preferred reading of the
      text, and returns none exactly when there is no reading at all. */
  lemma ParserMeetsExpression(s: string, v: Version)
    ensures ReleasePart(s) == Some(v)
            <==> exists p: Parts :: IsReading(p) && IsPreferred(p) && Text(p) == s && Meaning(p) == v
    ensures ReleasePart(s).None? <==> !exists p: Parts :: IsReading(p) && Text(p) == s
  {
    hide ReleasePart, Text;
    if ReleasePart(s).Some? {
      var p := ParsedIsReading(s);
      assert IsReading(p) && Text(p) == s;
    }
    forall p: Parts | IsReading(p) && Text(p) == s
      ensures ReleasePart(s).Some? && (IsPreferred(p) ==> ReleasePart(s) == Some(Meaning(p)))
    {
      if IsPreferred(p) {
        ReadingParses(p);
      } else {
        var q := OtherReading(p);
        ReadingParses(q);
      }
    }
  }

  // ---------- round trips ----------

  function Canonical(v: Version): Parts
  {
    Parts(
      Decimal(v.major), Decimal(v.minor), Decimal(v.patch),
      if v.pre.Some? then Some(PreParts(v.pre.value.kind, true, Decimal(v.pre.value.index))) else None,
      if v.dev.Some? then Some(DevParts(if v.pre.Some? then '.' else '-', Decimal(v.dev.value))) else None,
      v.local)
  }

  lemma CanonicalText(v: Version)
    ensures Text(Canonical(v)) == Print(v)
  {
    hide Decimal, KindText;
    var p := Canonical(v);
    var pre, dev, local := PreText(p.pre), DevText(p.dev), LocalText(p.local);
    assert Print(v) == p.major + "." + p.minor + "." + p.patch + pre + dev + local;
    assert (p.major + "." + p.minor + "." + p.patch) + pre + dev + local
           == p.major + "." + (p.minor + "." + (p.patch + (pre + (dev + local))));
  }

  lemma CanonicalIsReading(v: Version)
    requires WellFormed(v)
    ensures IsReading(Canonical(v)) && Meaning(Canonical(v)) == v && Text(Canonical(v)) == Print(v)
  {
    hide Decimal, Value, Text, Print;
    DecimalIsNumber(v.major);
    DecimalIsNumber(v.minor);
    DecimalIsNumber(v.patch);
    if v.pre.Some? { DecimalIsNumber(v.pre.value.index); }
    if v.dev.Some? { DecimalIsNumber(v.dev.value); }
    CanonicalText(v);
  }

  lemma PrintedEdges(v: Version)
    requires WellFormed(v)
    ensures var s := Print(v); s != "" && IsDigit(s[0]) && IsAlnum(s[|s| - 1])
  {
    hide Decimal, Value;
    DecimalIsNumber(v.major);
    DecimalIsNumber(v.patch);
    if v.pre.Some? { DecimalIsNumber(v.pre.value.index); }
    if v.dev.Some? { DecimalIsNumber(v.dev.value); }
    if v.local.Some? { LocalHasNoPlus(v.local.value); }
  }

  /** The versions that survive being printed and read. */
  predicate IsStable(v: Version) { v.dev.None? ==> !LooksLikeDev(v.local) }

  lemma CleanTextIsRead(s: string)
    requires s != "" && IsDigit(s[0]) && IsAlnum(s[|s| - 1])
    ensures Parse(s) == ReleasePart(s) && Parse("v" + s) == ReleasePart(s)
  {
    hide ReleasePart;
    assert ("v" + s)[1..] == s;
  }

  /** What is read from the text of a version, with or without the `v` of a tag. */
  lemma ParsePrinted(v: Version)
    requires WellFormed(v)
    ensures Parse(Print(v)) == Parse("v" + Print(v))
    ensures Parse(Print(v))
            == Some(if IsStable(v) then v else v.(dev := Some(Value(v.local.value[4..])), local := None))
  {
    hide Parse, Print, ReleasePart, Text;
    PrintedEdges(v);
    CleanTextIsRead(Print(v));
    CanonicalIsReading(v);
    if IsStable(v) {
      ReadingParses(Canonical(v));
    } else {
      var q := OtherReading(Canonical(v));
      ReadingParses(q);
    }
  }

  /** The round trip, and exactly when it fails. */
  lemma RoundTrip(v: Version)
    requires WellFormed(v)
    ensures Parse(Print(v)) == Some(v) <==> (v.dev.None? ==> !LooksLikeDev(v.local))
  {
    hide Parse, Print;
    ParsePrinted(v);
  }

  lemma RoundTripCanFail()
    ensures var v := Version(1, 2, 3, None, None, Some("dev.5"));
            WellFormed(v) && Print(v) == "1.2.3+dev.5" && Parse(Print(v)) == Some(v.(dev := Some(5), local := None))
  {
    var v := Version(1, 2, 3, None, None, Some("dev.5"));
    LocalDevFive();
    assert Print(v) == "1.2.3+dev.5";
    hide Parse, Print, IsLocal, LooksLikeDev, Value;
    ParsePrinted(v);
  }

  lemma LocalDevFive()
    ensures IsLocal("dev.5") && LooksLikeDev(Some("dev.5")) && "dev.5"[4..] == "5" && Value("5") == 5
  {
  }

  /** Whatever is read from any text can be printed and read again. */
  lemma ParsedIsStable(raw: string)
    requires Parse(raw).Some?
    ensures var v := Parse(raw).value; WellFormed(v) && IsStable(v) && Parse(Print(v)) == Some(v)
  {
    var p := ParsedIsReading(WithoutV(WithoutV(StripRight(StripLeft(raw)))));
    ParsePrinted(Parse(raw).value);
  }

  /** Printing loses nothing, so the comparison of texts in `__eq__` compares the fields. */
  lemma PrintIsInjective(v: Version, w: Version)
    requires WellFormed(v) && WellFormed(w)
    ensures Print(v) == Print(w) <==> v == w
  {
    if Print(v) == Print(w) {
      hide Parse, Value;
      ParsePrinted(v);
      ParsePrinted(w);
      assert v.(dev := None, local := None) == w.(dev := None, local := None);
      EqualBasesEqualTails(v, w);
    }
  }

  function Base(v: Version): string { Print(v.(dev := None, local := None)) }

  function Tail(v: Version): string
  {
    (if v.dev.Some? then (if v.pre.Some? then "." else "-") + "dev." + Decimal(v.dev.value) else "")
    + (if v.local.Some? then "+" + v.local.value else "")
  }

  lemma PrintSplits(v: Version)
    ensures Print(v) == Base(v) + Tail(v)
  {
  }

  lemma EqualBasesEqualTails(v: Version, w: Version)
    requires WellFormed(v) && WellFormed(w) && Print(v) == Print(w)
    requires v.(dev := None, local := None) == w.(dev := None, local := None)
    requires IsStable(v) && IsStable(w) ==> v == w
    requires !IsStable(v) && IsStable(w) ==> w.dev.Some?
    requires !IsStable(w) && IsStable(v) ==> v.dev.Some?
    ensures v == w
  {
    PrintSplits(v);
    PrintSplits(w);
    hide Print, Decimal;
    assert (Base(v) + Tail(v))[|Base(v)|..] == Tail(v) && (Base(w) + Tail(w))[|Base(w)|..] == Tail(w);
    if !IsStable(v) || !IsStable(w) {
      assert Tail(v)[0] == Tail(w)[0];
      assert Tail(v)[1..] == v.local.value && Tail(w)[1..] == w.local.value;
    }
  }
}
