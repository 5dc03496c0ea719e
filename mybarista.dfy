/** The helpers of the status-bar configuration: rune-based truncation with an
    ellipsis, the media player's text and time display, and the battery's
    colour thresholds. Strings are sequences of runes (Unicode scalar values);
    Go's `len` of a string, its UTF-8 byte length, is `ByteLen`. Durations
    are integer nanoseconds. */
module MyBarista {
  import opened Shared

  const Minute: int := 60 * Second
  const Hour: int := 60 * Minute

  /** "⋯", U+22EF, three bytes in UTF-8. */
  const Ellipsis: char := '\U{22EF}'

  /** A value, or a Go run-time panic (a slice bound out of range). */
  datatype Result<T> = Ok(value: T) | Panic

  /** The number of bytes UTF-8 uses for `c`. */
  function RuneBytes(c: char): (n: nat)
    ensures 1 <= n <= 4
  {
    if c as int < 0x80 then 1
    else if c as int < 0x800 then 2
    else if c as int < 0x1_0000 then 3
    else 4
  }

  /** Go's `len(s)`: the length of the UTF-8 encoding of `s`. */
  function ByteLen(s: string): (n: nat)
    ensures |s| <= n <= 4 * |s|
  {
    if s == [] then 0 else ByteLen(s[..|s| - 1]) + RuneBytes(s[|s| - 1])
  }

  lemma {:induction false} ByteLenOfRepeat(n: nat, c: char)
    ensures ByteLen(seq(n, _ => c)) == n * RuneBytes(c)
  {
    if n > 0 {
      var s := seq(n, _ => c);
      assert s[..n - 1] == seq(n - 1, _ => c);
      ByteLenOfRepeat(n - 1, c);
    }
  }

  /** `truncate(in, l)`: `in` itself when it has at most `l` runes, else its
      first `l - 1` runes and an ellipsis, `l` runes in all; the slice
      `[:l-1]` panics when `l < 1`. */
  function Truncate(s: string, l: int): (r: Result<string>)
    ensures r.Ok? <==> |s| <= l || 1 <= l
    ensures r.Ok? ==> |r.value| <= l
    ensures |s| <= l ==> r == Ok(s)
    ensures 1 <= l < |s| ==>
      |r.value| == l && r.value[..l - 1] == s[..l - 1] && r.value[l - 1] == Ellipsis
  {
    if |s| <= l then Ok(s)
    else if 1 <= l then Ok(s[..l - 1] + [Ellipsis])
    else Panic
  }

  /** Go's conversion of a quotient to `int`, which truncates toward zero. */
  function Quot(a: int, b: int): int
    requires b > 0
  {
    if a >= 0 then a / b else -((-a) / b)
  }

  /** Go's `%`, whose result has the sign of the dividend. */
  function Rem(a: int, b: int): int
    requires b > 0
  {
    a - b * Quot(a, b)
  }

  datatype HMS = HMS(h: int, m: int, s: int)

  /** `hms(d)`: whole hours, then the minutes and seconds left over. */
  function Hms(d: int): (r: HMS)
    ensures r.h * 3600 + r.m * 60 + r.s == Quot(d, Second)
    ensures -60 < r.m < 60 && -60 < r.s < 60
    ensures d >= 0 ==> r.h >= 0 && r.m >= 0 && r.s >= 0
    ensures d <= 0 ==> r.h <= 0 && r.m <= 0 && r.s <= 0
  {
    QuotOfQuot(d);
    RemBounds(Quot(d, Minute));
    RemBounds(Quot(d, Second));
    HMS(Quot(d, Hour), Rem(Quot(d, Minute), 60), Rem(Quot(d, Second), 60))
  }

  /** Whole minutes are whole seconds divided by 60, and whole hours are
      whole minutes divided by 60. */
  lemma QuotOfQuot(d: int)
    ensures Quot(d, Minute) == Quot(Quot(d, Second), 60)
    ensures Quot(d, Hour) == Quot(Quot(d, Minute), 60)
  {
    var x := if d >= 0 then d else -d;
    assert x / Second / 60 == x / Minute;
    assert x / Minute / 60 == x / Hour;
  }

  lemma RemBounds(a: int)
    ensures -60 < Rem(a, 60) < 60
    ensures a >= 0 ==> Quot(a, 60) >= 0 && Rem(a, 60) >= 0
    ensures a <= 0 ==> Quot(a, 60) <= 0 && Rem(a, 60) <= 0
  {
  }

  predicate IsDigit(c: char)
  {
    '0' <= c <= '9'
  }

  predicate AllDigits(s: string)
  {
    forall i :: 0 <= i < |s| ==> IsDigit(s[i])
  }

  function DigitChar(d: int): (c: char)
    requires 0 <= d < 10
    ensures IsDigit(c)
  {
    ('0' as int + d) as char
  }

  /** The decimal digits of `n`, without leading zeros. */
  function Decimal(n: nat): (s: string)
    ensures |s| >= 1 && AllDigits(s)
    ensures |s| == 1 <==> n < 10
    ensures n < 100 ==> |s| <= 2
    ensures s[0] == '0' ==> s == "0"
  {
    if n < 10 then [DigitChar(n)] else Decimal(n / 10) + [DigitChar(n % 10)]
  }

  /** `%d`: the digits of `n`, after a minus sign when it is negative. */
  function Itoa(n: int): (r: string)
    ensures |r| >= 1
    ensures n >= 0 ==> AllDigits(r) && DigitsValue(r) == n
    ensures n < 0 ==> |r| >= 2 && r[0] == '-' && AllDigits(r[1..]) && DigitsValue(r[1..]) == -n
    ensures n >= 0 ==> (r[0] == '0' ==> r == "0")
    ensures n < 0 ==> r[1] != '0'
  {
    if n < 0 then
      DecimalRoundTrip(-n);
      var r := "-" + Decimal(-n);
      assert r[1..] == Decimal(-n);
      r
    else
      DecimalRoundTrip(n);
      Decimal(n)
  }

  /** `%02d`: at least two characters, zero-padded after any sign; exactly
      two digits for 0 to 99. */
  function Pad2(n: int): (r: string)
    ensures |r| >= 2
    ensures 0 <= n < 100 ==> |r| == 2
    ensures n >= 0 ==> AllDigits(r) && DigitsValue(r) == n
    ensures n < 0 ==> r[0] == '-' && AllDigits(r[1..]) && DigitsValue(r[1..]) == -n
    ensures n >= 10 ==> r[0] != '0'
    ensures n < 0 ==> r[1] != '0'
  {
    if 0 <= n < 10 then
      DecimalRoundTrip(n);
      var r := "0" + Decimal(n);
      assert r[..1] == "0";
      r
    else Itoa(n)
  }

  /** The `Sprintf` of `formatMediaTime`: "H:MM:SS" when there are hours,
      else "M:SS". */
  function Display(t: HMS): string
  {
    if t.h > 0 then Itoa(t.h) + ":" + Pad2(t.m) + ":" + Pad2(t.s)
    else Itoa(t.m) + ":" + Pad2(t.s)
  }

  /** `formatMediaTime(d)`. A non-negative duration's display reads back as
      the duration's whole seconds, with an hour field exactly from one hour on. */
  function FormatMediaTime(d: int): (r: string)
    ensures d >= 0 ==> ParseMediaTime(r) == Some(Reading(d >= Hour, d / Second))
  {
    DisplayRoundTrip(d);
    Display(Hms(d))
  }

  /** The number a string of decimal digits denotes. */
  function DigitsValue(s: string): nat
    requires AllDigits(s)
  {
    if s == [] then 0 else DigitsValue(s[..|s| - 1]) * 10 + (s[|s| - 1] as int - '0' as int)
  }

  lemma {:induction false} DecimalRoundTrip(n: nat)
    ensures DigitsValue(Decimal(n)) == n
  {
    if n >= 10 {
      var s := Decimal(n);
      assert s[..|s| - 1] == Decimal(n / 10);
      DecimalRoundTrip(n / 10);
    }
  }

  /** Digits as `%d` writes a natural number: at least one, and no leading zero. */
  predicate Canonical(s: string)
  {
    s != [] && AllDigits(s) && (s[0] == '0' ==> |s| == 1)
  }

  /** A natural number written as `%d` writes it. */
  function Number(s: string): Option<nat>
  {
    if Canonical(s) then Some(DigitsValue(s)) else None
  }

  /** Exactly two decimal digits standing for less than 60, as `%02d` writes
      minutes and seconds. */
  function TwoDigits(s: string): Option<nat>
  {
    if |s| == 2 && AllDigits(s) && DigitsValue(s) < 60 then Some(DigitsValue(s)) else None
  }

  /** What a media time display reads as: whether it shows an hour field,
      and the whole seconds it stands for. */
  datatype Reading = Reading(withHours: bool, seconds: int)

  /** Reads "M:SS" or "H:MM:SS" back from the right: two digits after the
      last colon, two more after a colon before them if there is one, and a
      number without leading zeros first, which is a positive hour count or
      fewer than 60 minutes. */
  function ParseMediaTime(t: string): Option<Reading>
  {
    if |t| < 4 || t[|t| - 3] != ':' then None
    else
      var head := t[..|t| - 3];
      var ss := t[|t| - 2..];
      if |head| >= 4 && head[|head| - 3] == ':' then
        match (Number(head[..|head| - 3]), TwoDigits(head[|head| - 2..]), TwoDigits(ss))
        case (Some(h), Some(m), Some(s)) => if h > 0 then Some(Reading(true, h * 3600 + m * 60 + s)) else None
        case _ => None
      else
        match (Number(head), TwoDigits(ss))
        case (Some(m), Some(s)) => if m < 60 then Some(Reading(false, m * 60 + s)) else None
        case _ => None
  }

  /** `a:b` with a two-character `b` splits back into `a` and `b`. */
  lemma SplitLastField(a: string, b: string)
    requires |b| == 2
    ensures var t := a + ":" + b;
      |t| == |a| + 3 && t[|t| - 3] == ':' && t[..|t| - 3] == a && t[|t| - 2..] == b
  {
    var t := a + ":" + b;
    assert t[..|t| - 3] == a;
    assert t[|t| - 2..] == b;
  }

  lemma ParseTwoFields(a: string, b: string)
    requires Number(a).Some? && Number(a).value < 60 && TwoDigits(b).Some?
    ensures ParseMediaTime(a + ":" + b) == Some(Reading(false, Number(a).value * 60 + TwoDigits(b).value))
  {
    SplitLastField(a, b);
    if |a| >= 4 {
      assert IsDigit(a[|a| - 3]);
    }
  }

  lemma ParseThreeFields(a: string, b: string, c: string)
    requires Number(a).Some? && Number(a).value > 0 && TwoDigits(b).Some? && TwoDigits(c).Some?
    ensures ParseMediaTime(a + ":" + b + ":" + c) ==
      Some(Reading(true, Number(a).value * 3600 + TwoDigits(b).value * 60 + TwoDigits(c).value))
  {
    SplitLastField(a + ":" + b, c);
    SplitLastField(a, b);
  }

  lemma DisplayRoundTrip(d: int)
    ensures d >= 0 ==> ParseMediaTime(Display(Hms(d))) == Some(Reading(d >= Hour, d / Second))
  {
    if d >= 0 {
      HoursOfNonNegative(d);
      var t := Hms(d);
      if d >= Hour {
        ThreeFieldsRoundTrip(t.h, t.m, t.s, d / Second);
      } else {
        TwoFieldsRoundTrip(t.m, t.s, d / Second);
      }
    }
  }

  /** "H:MM:SS" reads back as its seconds. */
  lemma ThreeFieldsRoundTrip(h: nat, m: int, s: int, seconds: int)
    requires h > 0 && 0 <= m < 60 && 0 <= s < 60 && seconds == h * 3600 + m * 60 + s
    ensures ParseMediaTime(Itoa(h) + ":" + Pad2(m) + ":" + Pad2(s)) == Some(Reading(true, seconds))
  {
    ParseThreeFields(Itoa(h), Pad2(m), Pad2(s));
  }

  /** "M:SS" reads back as its seconds. */
  lemma TwoFieldsRoundTrip(m: nat, s: int, seconds: int)
    requires m < 60 && 0 <= s < 60 && seconds == m * 60 + s
    ensures ParseMediaTime(Itoa(m) + ":" + Pad2(s)) == Some(Reading(false, seconds))
  {
    ParseTwoFields(Itoa(m), Pad2(s));
  }

  /** For a non-negative duration the hour count is positive exactly from
      one hour on, and the fields add up to the whole seconds. */
  lemma HoursOfNonNegative(d: int)
    requires d >= 0
    ensures Hms(d).h > 0 <==> d >= Hour
    ensures Hms(d).h * 3600 + Hms(d).m * 60 + Hms(d).s == d / Second
  {
  }

  /** Leading digits that are not zero stand for a positive number. */
  lemma {:induction false} DigitsValuePositive(s: string)
    requires s != [] && AllDigits(s) && s[0] != '0'
    ensures DigitsValue(s) >= 1
  {
    if |s| > 1 {
      var p := s[..|s| - 1];
      assert p[0] == s[0];
      DigitsValuePositive(p);
    }
  }

  /** Digits without a leading zero are the decimal digits of their value. */
  lemma {:induction false} CanonicalIsDecimal(s: string)
    requires Canonical(s)
    ensures s == Decimal(DigitsValue(s))
  {
    if |s| > 1 {
      var p := s[..|s| - 1];
      assert p[0] == s[0];
      DigitsValuePositive(p);
      CanonicalIsDecimal(p);
      assert s == p + [s[|s| - 1]];
    }
  }

  /** Two digits below 60 are `%02d` of their value. */
  lemma TwoDigitsArePad2(s: string)
    requires TwoDigits(s).Some?
    ensures s == Pad2(TwoDigits(s).value)
  {
    assert s[..1][..0] == [];
    if s[0] != '0' {
      CanonicalIsDecimal(s);
    } else {
      var v := DigitsValue(s);
      assert v == s[1] as int - '0' as int;
      assert Decimal(v) == [s[1]];
      assert s == "0" + [s[1]];
    }
  }

  /** Hours, minutes below 60 and seconds below 60 are determined by the
      seconds they add up to. */
  lemma MixedRadix(h: int, m: int, s: int, h': int, m': int, s': int)
    requires 0 <= m < 60 && 0 <= s < 60 && 0 <= m' < 60 && 0 <= s' < 60
    requires h * 3600 + m * 60 + s == h' * 3600 + m' * 60 + s'
    ensures h == h' && m == m' && s == s'
  {
    var a, a' := h * 60 + m, h' * 60 + m';
    assert (a - a') * 60 == s' - s;
  }

  /** The reader accepts only what `formatMediaTime` prints: a text that
      reads back as a time is the display of that many whole seconds, and it
      has an hour field exactly from one hour on. */
  lemma ParseMediaTimeExact(t: string)
    requires ParseMediaTime(t).Some?
    ensures var r := ParseMediaTime(t).value;
      && r.seconds >= 0
      && (r.withHours <==> r.seconds >= 3600)
      && t == FormatMediaTime(r.seconds * Second)
  {
    var r := ParseMediaTime(t).value;
    var head, ss := t[..|t| - 3], t[|t| - 2..];
    assert t == head + ":" + ss;
    TwoDigitsArePad2(ss);
    var s := TwoDigits(ss).value;
    if |head| >= 4 && head[|head| - 3] == ':' {
      var hh, mm := head[..|head| - 3], head[|head| - 2..];
      assert head == hh + ":" + mm;
      CanonicalIsDecimal(hh);
      TwoDigitsArePad2(mm);
      var h, m := Number(hh).value, TwoDigits(mm).value;
      DisplayOfSeconds(h, m, s, r.seconds);
    } else {
      CanonicalIsDecimal(head);
      var m := Number(head).value;
      DisplayOfSeconds(0, m, s, r.seconds);
    }
  }

  /** The display of `seconds` whole seconds is built from its hours,
      minutes and seconds. */
  lemma DisplayOfSeconds(h: nat, m: int, s: int, seconds: int)
    requires 0 <= m < 60 && 0 <= s < 60 && seconds == h * 3600 + m * 60 + s
    ensures FormatMediaTime(seconds * Second) ==
      if h > 0 then Itoa(h) + ":" + Pad2(m) + ":" + Pad2(s) else Itoa(m) + ":" + Pad2(s)
  {
    var d := seconds * Second;
    assert d / Second == seconds;
    HoursOfNonNegative(d);
    var f := Hms(d);
    MixedRadix(f.h, f.m, f.s, h, m, s);
  }

  /** Two texts that read back as the same time are the same text. */
  lemma ParseMediaTimeInjective(a: string, b: string)
    requires ParseMediaTime(a).Some? && ParseMediaTime(a) == ParseMediaTime(b)
    ensures a == b
  {
    ParseMediaTimeExact(a);
    ParseMediaTimeExact(b);
  }

  /** `formatMediaTime(d)` of a non-negative duration is the only text that
      reads back as its whole seconds with an hour field iff `d` is at least
      an hour. */
  lemma FormatMediaTimeIsTheReading(d: int, t: string)
    requires d >= 0 && ParseMediaTime(t) == Some(Reading(d >= Hour, d / Second))
    ensures t == FormatMediaTime(d)
  {
    ParseMediaTimeInjective(t, FormatMediaTime(d));
  }

  /** A negative duration shows its fields with their minus signs: 65
      seconds before zero is "-1:-5". Its hour count is never positive, so
      one hour before zero shows as "0:00". */
  lemma NegativeDisplay()
    ensures FormatMediaTime(-65 * Second) == "-1:-5"
    ensures FormatMediaTime(-Hour) == "0:00"
  {
    assert Hms(-65 * Second) == HMS(0, -1, -5);
    assert Hms(-Hour) == HMS(-1, 0, 0);
  }

  /** No display of a duration holds a slash: it is made of digits, minus
      signs and colons. */
  lemma DisplayHasNoSlash(t: HMS)
    ensures '/' !in Display(t)
  {
    NoSlash(t.h, Itoa(t.h));
    NoSlash(t.m, Itoa(t.m));
    NoSlash(t.m, Pad2(t.m));
    NoSlash(t.s, Pad2(t.s));
  }

  lemma NoSlash(n: int, r: string)
    requires n >= 0 ==> AllDigits(r)
    requires n < 0 ==> |r| >= 1 && r[0] == '-' && AllDigits(r[1..])
    ensures '/' !in r
  {
    if n < 0 {
      assert r == [r[0]] + r[1..];
    }
  }

  /** The player's state (`media.PlaybackStatus`). */
  datatype PlaybackStatus = Disconnected | Playing | Paused | Stopped

  /** The parts of `media.Info` the display uses; `position` is the value
      `Position()` gives at the moment of formatting. */
  datatype MediaInfo = MediaInfo(status: PlaybackStatus, artist: string, title: string, position: int, length: int)

  /** The text of the media display: "position/length" while playing, then
      the title and the artist. */
  datatype MediaText = MediaText(times: Option<string>, title: string, artist: string)

  predicate Hidden(m: MediaInfo)
  {
    m.status == Stopped || m.status == Disconnected
  }

  /** "position/length" while playing. */
  function Times(m: MediaInfo): (r: Option<string>)
    ensures r.Some? <==> m.status == Playing
  {
    if m.status == Playing then Some(FormatMediaTime(m.position) + "/" + FormatMediaTime(m.length)) else None
  }

  /** While playing, the times read back, at the only slash, as the whole
      seconds of the position and of the length. */
  lemma TimesReadBack(m: MediaInfo)
    requires m.status == Playing && m.position >= 0 && m.length >= 0
    ensures var t := Times(m).value;
      var i := IndexOf(t, '/');
      && 0 <= i
      && ParseMediaTime(t[..i]) == Some(Reading(m.position >= Hour, m.position / Second))
      && ParseMediaTime(t[i + 1..]) == Some(Reading(m.length >= Hour, m.length / Second))
  {
    var a, b := FormatMediaTime(m.position), FormatMediaTime(m.length);
    DisplayHasNoSlash(Hms(m.position));
    IndexOfJoin(a, '/', b);
    var t := a + "/" + b;
    assert t[..|a|] == a;
    assert t[|a| + 1..] == b;
  }

  /** `mediaFormatFunc` as written: nothing for a stopped or disconnected
      player, else the times while playing, the title and the artist. It
      panics exactly when the title's budget (below) is under one rune and
      the title is longer. */
  function MediaFormat(m: MediaInfo): (r: Result<Option<MediaText>>)
    ensures Hidden(m) <==> r == Ok(None)
    ensures r.Ok? && r.value.Some? ==> r.value.value.times == Times(m)
    ensures !Hidden(m) ==>
      var budget := 40 - ByteLen(Truncate(m.artist, 20).value);
      r.Panic? <==> budget < 1 && budget < |m.title|
  {
    if Hidden(m) then Ok(None)
    else
      var artist := Truncate(m.artist, 20).value;
      match Truncate(m.title, 40 - ByteLen(artist))
      case Panic => Panic
      case Ok(title) =>
        var artist := if ByteLen(title) < 20 then Truncate(m.artist, 40 - ByteLen(title)).value else artist;
        Ok(Some(MediaText(Times(m), title, artist)))
  }

  /** The budget rule of `mediaFormatFunc` as written: with the artist cut
      to 20 runes, the title's budget is 40 minus that artist's BYTE length.
      A title within the budget is shown whole; a longer one is its first
      `budget - 1` runes and an ellipsis. */
  lemma MediaFormatTitle(m: MediaInfo, t: MediaText)
    requires MediaFormat(m) == Ok(Some(t))
    ensures |m.title| <= 40 - ByteLen(Truncate(m.artist, 20).value) ==> t.title == m.title
    ensures 40 - ByteLen(Truncate(m.artist, 20).value) < |m.title| ==>
      |t.title| == 40 - ByteLen(Truncate(m.artist, 20).value)
      && t.title[..|t.title| - 1] == m.title[..|t.title| - 1]
      && t.title[|t.title| - 1] == Ellipsis
  {
  }

  /** A title of fewer than 20 bytes lets the artist be cut again, to 40
      minus the title's byte length: shown whole when it fits, else cut with
      an ellipsis; a longer title keeps the artist cut to 20 runes. */
  lemma MediaFormatArtist(m: MediaInfo, t: MediaText)
    requires MediaFormat(m) == Ok(Some(t))
    ensures ByteLen(t.title) < 20 && |m.artist| <= 40 - ByteLen(t.title) ==> t.artist == m.artist
    ensures ByteLen(t.title) < 20 && 40 - ByteLen(t.title) < |m.artist| ==>
      |t.artist| == 40 - ByteLen(t.title)
      && t.artist[..|t.artist| - 1] == m.artist[..|t.artist| - 1]
      && t.artist[|t.artist| - 1] == Ellipsis
    ensures ByteLen(t.title) >= 20 ==> t.artist == Truncate(m.artist, 20).value
  {
  }

  /** An artist of fourteen three-byte runes (42 bytes) leaves the title a
      budget of -2 runes, and even an empty title makes `truncate` slice
      `[:-3]`. */
  lemma WideArtistPanics()
    ensures MediaFormat(MediaInfo(Paused, seq(14, _ => '\U{65E5}'), "", 0, 0)) == Panic
  {
    ByteLenOfRepeat(14, '\U{65E5}');
  }

  /** `mediaFormatFunc` with the budget in runes, as the 40-rune limit
      evidently intends: it never panics and the title and the artist
      together take at most 40 runes. */
  function MediaFormatByRunes(m: MediaInfo): (r: Result<Option<MediaText>>)
    ensures r.Ok?
    ensures Hidden(m) <==> r.value == None
    ensures r.value.Some? ==>
      var t := r.value.value;
      && t.times == Times(m)
      && Truncate(m.title, 40 - |Truncate(m.artist, 20).value|) == Ok(t.title)
      && (|t.title| < 20 ==> Truncate(m.artist, 40 - |t.title|) == Ok(t.artist))
      && (|t.title| >= 20 ==> Truncate(m.artist, 20) == Ok(t.artist))
      && |t.title| + |t.artist| <= 40
      && (|t.title| >= 20 ==> |t.artist| <= 20)
      && (t.title == m.title || |t.title| == 40 - |Truncate(m.artist, 20).value|)
  {
    if Hidden(m) then Ok(None)
    else
      var artist := Truncate(m.artist, 20).value;
      var title := Truncate(m.title, 40 - |artist|).value;
      var artist := if |title| < 20 then Truncate(m.artist, 40 - |title|).value else artist;
      Ok(Some(MediaText(Times(m), title, artist)))
  }

  /** The colour class of the battery display. */
  datatype Style = Urgent | Bad | Degraded | Plain | Good

  /** How good a style is: urgent is worst, good is best. */
  function Rank(s: Style): nat
  {
    match s
    case Urgent => 0
    case Bad => 1
    case Degraded => 2
    case Plain => 3
    case Good => 4
  }

  /** The battery `switch` over the remaining time: the first case that
      matches wins, and 30 to 45 minutes inclusive gets no colour. */
  function BatteryStyle(remaining: int): (s: Style)
    ensures s == Urgent <==> remaining < 5 * Minute
    ensures s == Bad <==> 5 * Minute <= remaining < 10 * Minute
    ensures s == Degraded <==> 10 * Minute <= remaining < 30 * Minute
    ensures s == Plain <==> 30 * Minute <= remaining <= 45 * Minute
    ensures s == Good <==> 45 * Minute < remaining
  {
    if remaining < 5 * Minute then Urgent
    else if remaining < 10 * Minute then Bad
    else if remaining < 30 * Minute then Degraded
    else if remaining > 45 * Minute then Good
    else Plain
  }

  /** More time left never gives a worse style. */
  lemma BatteryStyleMonotone(a: int, b: int)
    requires a <= b
    ensures Rank(BatteryStyle(a)) <= Rank(BatteryStyle(b))
  {
  }
}
