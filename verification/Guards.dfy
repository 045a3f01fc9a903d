/** The checks a write passes before it touches the disk, and the parsers of file attributes. */
module Guards {
  import opened Options
  import Paths

  const MAX_SECRET_SIZE := 1024 * 1024
  const MAX_PATH_LEN := 4096

  predicate Contains(s: string, part: string) {
    exists i :: 0 <= i <= |s| - |part| && part <= s[i..]
  }

  predicate DotsAt(s: string, i: int) {
    0 <= i < |s| - 1 && s[i] == '.' == s[i + 1]
  }

  lemma ContainsTwoDots(s: string)
    ensures Contains(s, "..") <==> exists i :: DotsAt(s, i)
  {
    if i :| 0 <= i <= |s| - 2 && ".." <= s[i..] {
      assert s[i] == s[i..][0] == ".."[0] && s[i + 1] == s[i..][1] == ".."[1];
      assert DotsAt(s, i);
    }
    if i :| DotsAt(s, i) {
      assert s[i..][..2] == "..";
    }
  }

  datatype PathVerdict = PathOk | PathEmpty | PathTooLong | PathExtended | PathUnc | PathRelative | PathDotDot

  function ValidatePath(path: string): PathVerdict {
    if path == "" then PathEmpty
    else if |path| > MAX_PATH_LEN then PathTooLong
    else if @"\\?\" <= path || @"\\.\" <= path then PathExtended
    else if @"\\" <= path then PathUnc
    else if !Paths.IsAbs(path) then PathRelative
    else if Contains(path, "..") then PathDotDot
    else PathOk
  }

  lemma AbsoluteVerdict(path: string)
    requires Paths.IsAbs(path) && |path| <= MAX_PATH_LEN
    ensures ValidatePath(path) == if Contains(path, "..") then PathDotDot else PathOk
  {
  }

  /** The whole check in one condition. */
  lemma PathOkIff(path: string)
    ensures ValidatePath(path).PathOk? <==>
      && 0 < |path| <= 4096 && path[0] == '/'
      && forall i :: 0 <= i < |path| - 1 ==> !(path[i] == '.' && path[i + 1] == '.')
  {
    ContainsTwoDots(path);
    if |path| > 0 && path[0] == '/' && |path| <= 4096 {
      AbsoluteVerdict(path);
      assert forall i :: DotsAt(path, i) <==> 0 <= i < |path| - 1 && path[i] == '.' && path[i + 1] == '.';
    }
  }

  /** What Lstat finds at a target path. */
  datatype FileKind = Absent | Regular | Directory | Symlink | Special | Unreadable

  predicate FileTypeAllowed(kind: FileKind) {
    kind.Absent? || kind.Regular? || kind.Directory?
  }

  function DigitValue(c: char): (d: int)
    ensures '0' <= c <= '9' <==> 0 <= d
    ensures d <= 9
  {
    if '0' <= c <= '9' then c as int - '0' as int else -1
  }

  /** The number that a non-empty string of digits below the base denotes. */
  function ParseDigits(s: string, base: nat): Option<nat> {
    if s == "" then None
    else
      var d := DigitValue(s[|s| - 1]);
      if !(0 <= d < base) then None
      else if |s| == 1 then Some(d)
      else
        var high := ParseDigits(s[..|s| - 1], base);
        if high.None? then None else Some(high.value * base + d)
  }

  function Numeral(n: nat, base: nat): (s: string)
    requires base == 8 || base == 10
    ensures s != "" && forall c :: c in s ==> '0' <= c <= '9'
  {
    var digit := [('0' as int + n % base) as char];
    if n < base then digit else Numeral(n / base, base) + digit
  }

  lemma ParseOneMore(s: string, c: char, base: nat)
    requires s != "" && ParseDigits(s, base).Some? && 0 <= DigitValue(c) < base
    ensures ParseDigits(s + [c], base) == Some(ParseDigits(s, base).value * base + DigitValue(c))
  {
    assert (s + [c])[..|s|] == s;
  }

  lemma DivisionSplits(n: nat, base: nat)
    requires base > 0
    ensures n / base * base + n % base == n
  {
  }

  lemma NumeralStep(n: nat, base: nat) returns (c: char)
    requires base == 8 || base == 10
    ensures DigitValue(c) == n % base
    ensures Numeral(n, base) == if n < base then [c] else Numeral(n / base, base) + [c]
  {
    c := ('0' as int + n % base) as char;
  }

  lemma ParseOneDigit(c: char, base: nat)
    requires 0 <= DigitValue(c) < base
    ensures ParseDigits([c], base) == Some(DigitValue(c))
  {
  }

  /** Reading a number back gives the number. */
  lemma {:induction false} ParseOfNumeral(n: nat, base: nat)
    requires base == 8 || base == 10
    ensures ParseDigits(Numeral(n, base), base) == Some(n)
  {
    hide Numeral, ParseDigits, DigitValue;
    var c := NumeralStep(n, base);
    if n < base {
      ParseOneDigit(c, base);
    } else {
      ParseOfNumeral(n / base, base);
      ParseOneMore(Numeral(n / base, base), c, base);
      DivisionSplits(n, base);
    }
  }

  /** Nothing but digits below the base is a number, and every such string is one. */
  lemma {:induction false} ParseDigitsIff(s: string, base: nat)
    requires base <= 10
    ensures ParseDigits(s, base).Some? <==> s != "" && forall i :: 0 <= i < |s| ==> 0 <= s[i] as int - '0' as int < base
  {
    if |s| > 1 {
      var high := s[..|s| - 1];
      ParseDigitsIff(high, base);
      assert forall i :: 0 <= i < |high| ==> high[i] == s[i];
    }
  }

  lemma {:induction false} LeadingZero(s: string, base: nat)
    requires s != "" && base > 0
    ensures ParseDigits("0" + s, base) == ParseDigits(s, base)
  {
    var padded := "0" + s;
    assert padded[..|s|] == "0" + s[..|s| - 1] && padded[|s|] == s[|s| - 1];
    if |s| > 1 {
      LeadingZero(s[..|s| - 1], base);
    } else {
      assert padded[..1] == "0" && ParseDigits("0", base) == Some(0);
    }
  }

  /** ParseMode: strconv.ParseUint(mode, 8, 32) followed by the permission check. */
  function ParseMode(mode: string): Option<nat> {
    if mode == "" then Some(384)
    else
      var m := ParseDigits(mode, 8);
      if m.None? || m.value >= 0x1_0000_0000 || !ModeAllowed(m.value) then None else m
  }

  /** Not writable by others, not both group-writable and readable by others, at most 0644. */
  predicate ModeAllowed(m: nat) {
    var perm := m % 512;
    && perm / 2 % 2 == 0
    && !(perm / 16 % 2 == 1 && perm / 4 % 2 == 1)
    && perm <= 420
  }

  /** The permission bits of three octal digits. */
  lemma PermissionBits(u: nat, g: nat, o: nat)
    requires u < 8 && g < 8 && o < 8
    ensures var p := 64 * u + 8 * g + o;
      && (p / 2 % 2 == 1 <==> o in [2, 3, 6, 7]) && (p / 4 % 2 == 1 <==> o in [4, 5, 6, 7])
      && (p / 16 % 2 == 1 <==> g in [2, 3, 6, 7])
  {
    var p := 64 * u + 8 * g + o;
    assert p / 2 == 32 * u + 4 * g + o / 2 && p / 4 == 16 * u + 2 * g + o / 4 && p / 16 == 4 * u + (8 * g + o) / 16;
    assert (8 * g + o) / 16 == g / 2;
  }

  /** Which modes a configuration may ask for, by the octal digits of user, group and others: nothing writable by
      others, nothing group-writable and readable by others, nothing above 0644; the bits above are free, up to 32. */
  lemma ModeOfNumeral(high: nat, u: nat, g: nat, o: nat)
    requires u < 8 && g < 8 && o < 8
    ensures var m := 512 * high + (64 * u + 8 * g + o);
      ParseMode(Numeral(m, 8)) ==
        if m < 0x1_0000_0000 && o in [0, 1, 4, 5] && (g in [2, 3, 6, 7] ==> o in [0, 1]) && 64 * u + 8 * g + o <= 420
        then Some(m) else None
  {
    hide ParseDigits, Numeral;
    var m := 512 * high + (64 * u + 8 * g + o);
    ParseOfNumeral(m, 8);
    assert m % 512 == 64 * u + 8 * g + o;
    PermissionBits(u, g, o);
  }

  /** ParseOwner: strconv.Atoi, with -1 for an absent owner. */
  function ParseOwner(owner: string): Option<int> {
    if owner == "" then Some(-1)
    else
      var signed := owner[0] == '+' || owner[0] == '-';
      var magnitude := ParseDigits(if signed then owner[1..] else owner, 10);
      if magnitude.None? then None
      else
        var size: int := magnitude.value;
        var n := if owner[0] == '-' then -size else size;
        if -0x8000_0000_0000_0000 <= n < 0x8000_0000_0000_0000 then Some(n) else None
  }

  /** A 64-bit number with an optional sign; -1 stands for no change. */
  lemma OwnerOfNumeral(n: nat)
    ensures ParseOwner("") == Some(-1)
    ensures ParseOwner(Numeral(n, 10)) == ParseOwner("+" + Numeral(n, 10)) == if n < 0x8000_0000_0000_0000 then Some(n) else None
    ensures ParseOwner("-" + Numeral(n, 10)) == if n <= 0x8000_0000_0000_0000 then Some(-(n as int)) else None
  {
    hide ParseDigits;
    ParseOfNumeral(n, 10);
    var s := Numeral(n, 10);
    assert s[0] in s;
    assert ("+" + s)[1..] == s && ("-" + s)[1..] == s;
  }

  lemma DefaultMode()
    ensures ParseMode("0600") == ParseMode("") == Some(384)
  {
    assert ParseDigits("0", 8) == Some(0);
    assert "06"[..1] == "0" && "060"[..2] == "06" && "0600"[..3] == "060";
    assert ParseDigits("06", 8) == Some(6);
    assert ParseDigits("060", 8) == Some(48);
    assert ParseDigits("0600", 8) == Some(384);
  }
}
