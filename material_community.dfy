/** The line callback that loads the Material Design (community) icon list
    from the `scss/_variables.scss` file of the webfont repository. Lines are
    skipped up to the one that opens the `$mdi-icons:` map; each later line
    of the form `"name": hex,` adds one icon. Lines are sequences of runes;
    `unicode.IsSpace` and `icons.SymbolFromHex` are parameters. */
module MaterialCommunity {
  import opened Shared

  const Marker: string := "$mdi-icons:"

  /** What `icons.SymbolFromHex` returns: the symbol, or its error. */
  datatype SymbolResult = Symbol(symbol: string) | HexError(message: string)

  /** `strings.Contains`. */
  predicate Contains(s: string, sub: string)
  {
    sub <= s || (s != [] && Contains(s[1..], sub))
  }

  /** `sub` occurs in `s` starting at position `i`. */
  predicate OccursAt(s: string, sub: string, i: nat)
  {
    i + |sub| <= |s| && s[i..i + |sub|] == sub
  }

  /** `s` contains `sub` exactly when `sub` occurs in it at some position. */
  lemma {:induction false} ContainsOccurrence(s: string, sub: string)
    ensures Contains(s, sub) <==> exists i: nat :: OccursAt(s, sub, i)
  {
    if s != [] {
      ContainsOccurrence(s[1..], sub);
    }
    if Contains(s, sub) {
      if sub <= s {
        assert OccursAt(s, sub, 0);
      } else {
        var j: nat :| OccursAt(s[1..], sub, j);
        assert s[j + 1..j + 1 + |sub|] == s[1..][j..j + |sub|];
        assert OccursAt(s, sub, j + 1);
      }
    }
    if exists i: nat :: OccursAt(s, sub, i) {
      var i: nat :| OccursAt(s, sub, i);
      if i > 0 {
        assert s[1..][i - 1..i - 1 + |sub|] == s[i..i + |sub|];
        assert OccursAt(s[1..], sub, i - 1);
      } else {
        assert sub <= s;
      }
    }
  }

  /** `strings.TrimLeftFunc`: drops the leading runes satisfying `cut`. */
  function TrimLeft(s: string, cut: char -> bool): (r: string)
    ensures |r| <= |s|
    ensures r != [] ==> !cut(r[0])
  {
    if s != [] && cut(s[0]) then TrimLeft(s[1..], cut) else s
  }

  /** What `TrimLeft` keeps is a suffix, and every rune it drops satisfies `cut`. */
  lemma {:induction false} TrimLeftDropsOnlyCut(s: string, cut: char -> bool)
    ensures var r := TrimLeft(s, cut);
      && r == s[|s| - |r|..]
      && forall i :: 0 <= i < |s| - |r| ==> cut(s[i])
  {
    if s != [] && cut(s[0]) {
      TrimLeftDropsOnlyCut(s[1..], cut);
      var r := TrimLeft(s, cut);
      forall i | 0 < i < |s| - |r|
        ensures cut(s[i])
      {
        assert s[i] == s[1..][i - 1];
      }
    }
  }

  /** `strings.TrimRightFunc`: drops the trailing runes satisfying `cut`. */
  function TrimRight(s: string, cut: char -> bool): (r: string)
    ensures |r| <= |s|
    ensures r != [] ==> !cut(r[|r| - 1])
  {
    if s != [] && cut(s[|s| - 1]) then TrimRight(s[..|s| - 1], cut) else s
  }

  /** What `TrimRight` keeps is a prefix, and every rune it drops satisfies `cut`. */
  lemma {:induction false} TrimRightDropsOnlyCut(s: string, cut: char -> bool)
    ensures var r := TrimRight(s, cut);
      && r == s[..|r|]
      && forall i :: |r| <= i < |s| ==> cut(s[i])
  {
    if s != [] && cut(s[|s| - 1]) {
      TrimRightDropsOnlyCut(s[..|s| - 1], cut);
      var r := TrimRight(s, cut);
      forall i | |r| <= i < |s| - 1
        ensures cut(s[i])
      {
        assert s[i] == s[..|s| - 1][i];
      }
    }
  }

  /** `strings.TrimFunc`: the rest of `s` once both ends are trimmed. */
  function TrimFunc(s: string, cut: char -> bool): (r: string)
    ensures |r| <= |s|
    ensures r != [] ==> !cut(r[0]) && !cut(r[|r| - 1])
  {
    var l := TrimLeft(s, cut);
    TrimRightDropsOnlyCut(l, cut);
    var r := TrimRight(l, cut);
    assert r != [] ==> r[0] == l[0];
    r
  }

  /** `TrimFunc` keeps a contiguous part of `s` starting at `i`, cuts only
      runes satisfying `cut`, and leaves no such rune at either end. */
  lemma TrimFuncIsMaximalInfix(s: string, cut: char -> bool) returns (i: nat)
    ensures var r := TrimFunc(s, cut);
      && i + |r| <= |s| && r == s[i..i + |r|]
      && (forall k :: 0 <= k < i ==> cut(s[k]))
      && (forall k :: i + |r| <= k < |s| ==> cut(s[k]))
      && (r != [] ==> !cut(r[0]) && !cut(r[|r| - 1]))
  {
    var l := TrimLeft(s, cut);
    var r := TrimRight(l, cut);
    TrimLeftDropsOnlyCut(s, cut);
    TrimRightDropsOnlyCut(l, cut);
    i := |s| - |l|;
    assert r == s[i..i + |r|];
    forall k | i + |r| <= k < |s|
      ensures cut(s[k])
    {
      assert s[k] == l[k - i];
    }
    if r != [] {
      assert r[0] == l[0];
    }
  }

  /** Trimming twice is trimming once. */
  lemma TrimFuncIdempotent(s: string, cut: char -> bool)
    ensures TrimFunc(TrimFunc(s, cut), cut) == TrimFunc(s, cut)
  {
    var r := TrimFunc(s, cut);
    TrimRightDropsOnlyCut(TrimLeft(s, cut), cut);
    if r != [] {
      assert r[0] == TrimLeft(s, cut)[0];
      assert TrimLeft(r, cut) == r;
    }
  }

  /** A name is trimmed of white space and quotes. */
  function NameCut(isSpace: char -> bool): char -> bool
  {
    c => isSpace(c) || c == '"'
  }

  /** A value is trimmed of white space and commas. */
  function ValueCut(isSpace: char -> bool): char -> bool
  {
    c => isSpace(c) || c == ','
  }

  /** `line[:colon]` and `line[colon+1:]` for the first colon of the line. */
  datatype Halves = Halves(before: string, after: string)

  function SplitAtFirstColon(line: string): (r: Option<Halves>)
    ensures r.None? <==> ':' !in line
    ensures r.Some? ==> line == r.value.before + ":" + r.value.after && ':' !in r.value.before
  {
    var colon := IndexOf(line, ':');
    if colon < 0 then None
    else
      assert line == line[..colon] + ":" + line[colon + 1..];
      Some(Halves(line[..colon], line[colon + 1..]))
  }

  /** What one line after the marker yields. */
  datatype LineOutcome = Skip | AddIcon(name: string, symbol: string) | Fail(message: string)

  /** The part of the callback that runs once the marker has been seen. */
  function ParseIconLine(line: string, isSpace: char -> bool, fromHex: string -> SymbolResult): (r: LineOutcome)
    ensures r.Skip? <==> ':' !in line
  {
    match SplitAtFirstColon(line)
    case None => Skip
    case Some(halves) =>
      var name := TrimFunc(halves.before, NameCut(isSpace));
      var value := TrimFunc(halves.after, ValueCut(isSpace));
      match fromHex(value)
      case HexError(message) => Fail(message)
      case Symbol(symbol) => AddIcon(name, symbol)
  }

  /** Only the first colon splits a line: for any `before` without a colon
      and any `after`, the line `before:after` fails with `fromHex`'s error
      on the trimmed `after`, or adds the trimmed `before` with its symbol. */
  lemma ParseIconLineAtFirstColon(before: string, after: string, isSpace: char -> bool, fromHex: string -> SymbolResult)
    requires ':' !in before
    ensures ParseIconLine(before + ":" + after, isSpace, fromHex) ==
      match fromHex(TrimFunc(after, ValueCut(isSpace)))
      case HexError(message) => Fail(message)
      case Symbol(symbol) => AddIcon(TrimFunc(before, NameCut(isSpace)), symbol)
  {
    var line := before + ":" + after;
    IndexOfJoin(before, ':', after);
    assert line[..|before|] == before;
    assert line[|before| + 1..] == after;
  }

  /** An icon name comes from before the first colon, so it holds no colon,
      and it neither starts nor ends with white space or a quote. */
  lemma IconNameIsClean(line: string, isSpace: char -> bool, fromHex: string -> SymbolResult)
    requires ParseIconLine(line, isSpace, fromHex).AddIcon?
    ensures var name := ParseIconLine(line, isSpace, fromHex).name;
      && ':' !in name
      && (name != [] ==> !isSpace(name[0]) && name[0] != '"')
      && (name != [] ==> !isSpace(name[|name| - 1]) && name[|name| - 1] != '"')
  {
    var halves := SplitAtFirstColon(line).value;
    var name := ParseIconLine(line, isSpace, fromHex).name;
    var i := TrimFuncIsMaximalInfix(halves.before, NameCut(isSpace));
  }

  /** Cut runes around a part with no cut rune at either end are trimmed
      away, and the part is kept whole. */
  lemma TrimFuncOfFramed(pre: string, x: string, post: string, cut: char -> bool)
    requires forall i :: 0 <= i < |pre| ==> cut(pre[i])
    requires forall i :: 0 <= i < |post| ==> cut(post[i])
    requires x != [] ==> !cut(x[0]) && !cut(x[|x| - 1])
    ensures TrimFunc(pre + x + post, cut) == x
  {
    TrimLeftOfCut(pre, x + post, cut);
    assert pre + x + post == pre + (x + post);
    if x == [] {
      assert x + post == post + [];
      TrimLeftOfCut(post, [], cut);
      assert TrimLeft(pre + x + post, cut) == [];
    } else {
      TrimRightOfCut(x, post, cut);
    }
  }

  /** Leading cut runes do not change what `TrimLeft` keeps. */
  lemma {:induction false} TrimLeftOfCut(pre: string, rest: string, cut: char -> bool)
    requires forall i :: 0 <= i < |pre| ==> cut(pre[i])
    ensures TrimLeft(pre + rest, cut) == TrimLeft(rest, cut)
  {
    if pre != [] {
      assert (pre + rest)[0] == pre[0];
      assert (pre + rest)[1..] == pre[1..] + rest;
      TrimLeftOfCut(pre[1..], rest, cut);
    } else {
      assert pre + rest == rest;
    }
  }

  /** Trailing cut runes do not change what `TrimRight` keeps. */
  lemma {:induction false} TrimRightOfCut(rest: string, post: string, cut: char -> bool)
    requires forall i :: 0 <= i < |post| ==> cut(post[i])
    ensures TrimRight(rest + post, cut) == TrimRight(rest, cut)
  {
    if post != [] {
      var s := rest + post;
      assert s[..|s| - 1] == rest + post[..|post| - 1];
      TrimRightOfCut(rest, post[..|post| - 1], cut);
    } else {
      assert rest + post == rest;
    }
  }

  /** A line of the icon map, `"name": hex,` after some indentation, adds
      `name` with the symbol that `hex` converts to, or fails with the
      conversion's error. */
  lemma ParseIconEntry(indent: string, name: string, hex: string, isSpace: char -> bool, fromHex: string -> SymbolResult)
    requires forall i :: 0 <= i < |indent| ==> isSpace(indent[i])
    requires ':' !in indent && ':' !in name && isSpace(' ')
    requires name != [] ==> !isSpace(name[0]) && name[0] != '"' && !isSpace(name[|name| - 1]) && name[|name| - 1] != '"'
    requires hex != [] ==> !isSpace(hex[0]) && hex[0] != ',' && !isSpace(hex[|hex| - 1]) && hex[|hex| - 1] != ','
    ensures ParseIconLine(indent + "\"" + name + "\": " + hex + ",", isSpace, fromHex) ==
      match fromHex(hex)
      case HexError(message) => Fail(message)
      case Symbol(symbol) => AddIcon(name, symbol)
  {
    var before, after := EntryHalves(indent, name, hex);
    NameOfEntry(indent, name, isSpace);
    ValueOfEntry(hex, isSpace);
    ParseIconLineAtFirstColon(before, after, isSpace, fromHex);
  }

  /** The colon after the quoted name is the line's first. */
  lemma EntryHalves(indent: string, name: string, hex: string) returns (before: string, after: string)
    requires ':' !in indent && ':' !in name
    ensures before == indent + "\"" + name + "\"" && after == " " + hex + ","
    ensures indent + "\"" + name + "\": " + hex + "," == before + ":" + after
    ensures ':' !in before
  {
    before, after := indent + "\"" + name + "\"", " " + hex + ",";
    assert indent + "\"" + name + "\": " + hex + "," == before + ":" + after;
  }

  /** The name part of an entry trims to the name. */
  lemma NameOfEntry(indent: string, name: string, isSpace: char -> bool)
    requires forall i :: 0 <= i < |indent| ==> isSpace(indent[i])
    requires name != [] ==> !isSpace(name[0]) && name[0] != '"' && !isSpace(name[|name| - 1]) && name[|name| - 1] != '"'
    ensures TrimFunc(indent + "\"" + name + "\"", NameCut(isSpace)) == name
  {
    var cut := NameCut(isSpace);
    var pre := indent + "\"";
    assert forall i :: 0 <= i < |pre| ==> cut(pre[i]) by {
      forall i | 0 <= i < |pre| ensures cut(pre[i]) {
        if i < |indent| { assert pre[i] == indent[i]; }
      }
    }
    TrimFuncOfFramed(pre, name, "\"", cut);
  }

  /** The value part of an entry trims to the hex code. */
  lemma ValueOfEntry(hex: string, isSpace: char -> bool)
    requires isSpace(' ')
    requires hex != [] ==> !isSpace(hex[0]) && hex[0] != ',' && !isSpace(hex[|hex| - 1]) && hex[|hex| - 1] != ','
    ensures TrimFunc(" " + hex + ",", ValueCut(isSpace)) == hex
  {
    TrimFuncOfFramed(" ", hex, ",", ValueCut(isSpace));
  }

  /** The state of the line callback inside `Load`. */
  class IconScanner {
    /** Whether the `$mdi-icons:` line has been seen. */
    var started: bool
    /** The `add(name, symbol)` calls made so far, oldest first. */
    var added: seq<(string, string)>

    constructor ()
      ensures !started && added == []
    {
      started := false;
      added := [];
    }

    /** The callback for one line: returns the error to stop loading with. */
    method OnLine(line: string, isSpace: char -> bool, fromHex: string -> SymbolResult) returns (err: Option<string>)
      modifies this
      ensures old(started) ==> started
      ensures !old(started) ==>
        started == Contains(line, Marker) && added == old(added) && err == None
      ensures old(started) ==> match ParseIconLine(line, isSpace, fromHex)
        case Skip => added == old(added) && err == None
        case AddIcon(name, symbol) => added == old(added) + [(name, symbol)] && err == None
        case Fail(message) => added == old(added) && err == Some(message)
    {
      if !started {
        started := Contains(line, Marker);
        return None;
      }
      err := Record(ParseIconLine(line, isSpace, fromHex));
    }

    /** Acts on the outcome of a line after the marker. */
    method Record(outcome: LineOutcome) returns (err: Option<string>)
      modifies this`added
      ensures match outcome
        case Skip => added == old(added) && err == None
        case AddIcon(name, symbol) => added == old(added) + [(name, symbol)] && err == None
        case Fail(message) => added == old(added) && err == Some(message)
    {
      match outcome
      case Skip =>
        return None;
      case Fail(message) =>
        return Some(message);
      case AddIcon(name, symbol) =>
        added := added + [(name, symbol)];
        return None;
    }
  }
}
