/** Merging a Kconfig fragment into a configuration, line for line, and checking that it stuck.  A file is
    the sequence of its lines. */
module Kconfig {
  import opened Sequences
  import opened Wrappers

  // ----- one line -----

  const PREFIX := "CONFIG_"
  const OFF_PREFIX := "# CONFIG_"
  const OFF_SUFFIX := " is not set"
  const MARKER := "# --- merged from the fragment ---"

  predicate NameChar(c: char) { 'A' <= c <= 'Z' || 'a' <= c <= 'z' || '0' <= c <= '9' || c == '_' }

  /** How many name characters s starts with. */
  function Span(s: string): (n: nat)
    ensures n <= |s|
    ensures forall i :: 0 <= i < n ==> NameChar(s[i])
    ensures n < |s| ==> !NameChar(s[n])
  {
    if s == [] || !NameChar(s[0]) then 0 else 1 + Span(s[1..])
  }

  /** A value, or None for a symbol that is switched off. */
  type Value = Option<string>

  datatype Line = Assign(sym: string, value: Value) | Other

  /** The two line forms that say something of a symbol; a name is matched greedily. */
  function Classify(line: string): Line {
    if PREFIX <= line then
      var n := |PREFIX| + Span(line[|PREFIX|..]);
      if n > |PREFIX| && n < |line| && line[n] == '=' then Assign(line[..n], Some(line[n + 1..])) else Other
    else if OFF_PREFIX <= line then
      var n := |OFF_PREFIX| + Span(line[|OFF_PREFIX|..]);
      if n > |OFF_PREFIX| && line[n..] == OFF_SUFFIX then Assign(line[2..n], None) else Other
    else Other
  }

  function Render(sym: string, value: Value): string {
    if value.None? then "# " + sym + OFF_SUFFIX else sym + "=" + value.value
  }

  predicate IsSymbol(sym: string) {
    PREFIX <= sym && |sym| > |PREFIX| && forall i :: |PREFIX| <= i < |sym| ==> NameChar(sym[i])
  }

  lemma {:induction false} SpanStops(name: string, rest: string)
    requires forall i :: 0 <= i < |name| ==> NameChar(name[i])
    requires rest != [] ==> !NameChar(rest[0])
    ensures Span(name + rest) == |name|
  {
    if name == [] {
      assert name + rest == rest;
    } else {
      assert (name + rest)[1..] == name[1..] + rest;
      SpanStops(name[1..], rest);
    }
  }

  lemma AfterPrefix(prefix: string, rest: string)
    ensures prefix <= prefix + rest && (prefix + rest)[|prefix|..] == rest
  {}

  lemma Middle(a: string, b: string, c: string, k: nat)
    requires k <= |a|
    ensures var s, n := a + (b + c), |a| + |b|;
            s[k..n] == a[k..] + b && s[n..] == c
  {
    assert a + (b + c) == a[..k] + (a[k..] + b) + c;
  }

  lemma OffReads(name: string)
    requires name != [] && forall i :: 0 <= i < |name| ==> NameChar(name[i])
    ensures Classify(OFF_PREFIX + (name + OFF_SUFFIX)) == Assign(PREFIX + name, None)
  {
    var line := OFF_PREFIX + (name + OFF_SUFFIX);
    AfterPrefix(OFF_PREFIX, name + OFF_SUFFIX);
    Middle(OFF_PREFIX, name, OFF_SUFFIX, 2);
    SpanStops(name, OFF_SUFFIX);
    assert line[0] == '#' && !(PREFIX <= line);
    var n := |OFF_PREFIX| + |name|;
    hide Span, NameChar;
    assert OFF_PREFIX[2..] == PREFIX;
    assert line[n..] == OFF_SUFFIX && line[2..n] == PREFIX + name;
  }

  lemma OnReads(name: string, value: string)
    requires name != [] && forall i :: 0 <= i < |name| ==> NameChar(name[i])
    ensures Classify(PREFIX + (name + ("=" + value))) == Assign(PREFIX + name, Some(value))
  {
    var line := PREFIX + (name + ("=" + value));
    AfterPrefix(PREFIX, name + ("=" + value));
    SpanStops(name, "=" + value);
    var n := |PREFIX| + |name|;
    hide Span, NameChar;
    assert line[..n] == PREFIX + name && line[n] == '=' && line[n + 1..] == value;
  }

  lemma Regroup(a: string, b: string, c: string, d: string)
    ensures a + (b + c) + d == (a + b) + (c + d)
    ensures b + c + a + d == b + (c + (a + d))
  {}

  lemma OffPrefix()
    ensures OFF_PREFIX == "# " + PREFIX
  {}

  lemma SymbolParts(sym: string) returns (name: string)
    requires IsSymbol(sym)
    ensures sym == PREFIX + name && name != [] && forall i :: 0 <= i < |name| ==> NameChar(name[i])
  {
    name := sym[|PREFIX|..];
    forall i | 0 <= i < |name| ensures NameChar(name[i]) { assert name[i] == sym[|PREFIX| + i]; }
  }

  /** A rendered symbol reads back as itself. */
  lemma RenderReads(sym: string, value: Value)
    requires IsSymbol(sym)
    ensures Classify(Render(sym, value)) == Assign(sym, value)
  {
    var name := SymbolParts(sym);
    OffPrefix();
    hide Classify, NameChar, PREFIX, OFF_PREFIX, OFF_SUFFIX;
    if value.None? {
      OffReads(name);
      Regroup("# ", PREFIX, name, OFF_SUFFIX);
    } else {
      OnReads(name, value.value);
      Regroup("=", PREFIX, name, value.value);
    }
  }

  lemma SymbolsAreSymbols(line: string)
    ensures Classify(line).Assign? ==> IsSymbol(Classify(line).sym)
  {
    if PREFIX <= line {
    } else if OFF_PREFIX <= line {
      assert forall i :: 0 <= i < |PREFIX| ==> OFF_PREFIX[i + 2] == PREFIX[i];
    }
  }

  /** The characters of a symbol's name, by their codes. */
  lemma NameChars(c: char)
    ensures NameChar(c) <==> 65 <= c as int <= 90 || 97 <= c as int <= 122 || 48 <= c as int <= 57 || c as int == 95
  {}

  lemma Symbols(sym: string)
    ensures IsSymbol(sym) <==> |sym| > 7 && sym[..7] == "CONFIG_" && forall i :: 7 <= i < |sym| ==> NameChar(sym[i])
  {
    hide NameChar;
    assert PREFIX <= sym <==> |sym| >= 7 && sym[..7] == PREFIX;
  }

  lemma OnWritten(line: string)
    requires PREFIX <= line && Classify(line).Assign?
    ensures Classify(line).value.Some? && line == Classify(line).sym + "=" + Classify(line).value.value
  {
    var n := |PREFIX| + Span(line[|PREFIX|..]);
    hide Span;
    assert line == line[..n] + [line[n]] + line[n + 1..];
  }

  lemma OffWritten(line: string)
    requires !(PREFIX <= line) && Classify(line).Assign?
    ensures Classify(line).value.None? && line == "# " + Classify(line).sym + " is not set"
  {
    var n := |OFF_PREFIX| + Span(line[|OFF_PREFIX|..]);
    hide Span;
    assert line[..2] == OFF_PREFIX[..2] == "# ";
    assert line == line[..2] + line[2..n] + line[n..];
  }

  /** A line says something of a symbol exactly when it is one of its two forms, and then only that; every other
      line is read as nothing. */
  lemma ClassifyExactly(line: string, sym: string, value: Value)
    ensures Classify(line) == Assign(sym, value) <==>
              && IsSymbol(sym)
              && line == if value.None? then "# " + sym + " is not set" else sym + "=" + value.value
  {
    if Classify(line) == Assign(sym, value) {
      SymbolsAreSymbols(line);
      if PREFIX <= line { OnWritten(line); } else { OffWritten(line); }
    }
    if IsSymbol(sym) { RenderReads(sym, value); }
    hide Classify, IsSymbol;
  }

  // ----- a whole file -----

  /** Symbols in the order they first appeared, and the value each was last given. */
  datatype Dict = Dict(keys: seq<string>, vals: map<string, Value>)

  function Put(d: Dict, sym: string, value: Value): Dict {
    Dict(if sym in d.vals then d.keys else d.keys + [sym], d.vals[sym := value])
  }

  function Parse(lines: seq<string>): Dict {
    if lines == [] then Dict([], map[])
    else
      var before := Parse(lines[..|lines| - 1]);
      var line := Classify(lines[|lines| - 1]);
      if line.Assign? then Put(before, line.sym, line.value) else before
  }

  method ParseLines(lines: seq<string>) returns (out: Dict)
    ensures out == Parse(lines)
  {
    hide Classify;
    out := Dict([], map[]);
    for i := 0 to |lines|
      invariant out == Parse(lines[..i])
    {
      assert lines[..i + 1][..i] == lines[..i];
      var line := Classify(lines[i]);
      if line.Assign? { out := Put(out, line.sym, line.value); }
    }
    assert lines[..|lines|] == lines;
  }

  predicate Mentions(line: string, sym: string) { Classify(line).Assign? && Classify(line).sym == sym }

  /** How often a file sets or clears a symbol. */
  function Times(lines: seq<string>, sym: string): nat {
    if lines == [] then 0
    else Times(lines[..|lines| - 1], sym) + if Mentions(lines[|lines| - 1], sym) then 1 else 0
  }

  /** The value the last line about a symbol gives it, if there is one. */
  function Last(lines: seq<string>, sym: string): Option<Value> {
    if lines == [] then None
    else if Mentions(lines[|lines| - 1], sym) then Some(Classify(lines[|lines| - 1]).value)
    else Last(lines[..|lines| - 1], sym)
  }

  function Get(d: Dict, sym: string): Option<Value> { if sym in d.vals then Some(d.vals[sym]) else None }

  /** Parsing keeps exactly the last value of each symbol, and lists each symbol once. */
  lemma {:induction false} ParseKeepsLast(lines: seq<string>, sym: string)
    ensures Get(Parse(lines), sym) == Last(lines, sym)
    ensures Last(lines, sym).Some? <==> Times(lines, sym) > 0
  {
    hide Classify;
    if lines != [] { ParseKeepsLast(lines[..|lines| - 1], sym); }
  }

  ghost predicate KeysListed(d: Dict) {
    && (forall s :: s in d.keys <==> s in d.vals)
    && forall i, j :: 0 <= i < j < |d.keys| ==> d.keys[i] != d.keys[j]
  }

  lemma {:induction false} ParseListsKeys(lines: seq<string>)
    ensures KeysListed(Parse(lines))
    ensures forall s :: s in Parse(lines).vals ==> IsSymbol(s)
  {
    hide Classify, IsSymbol;
    if lines != [] {
      ParseListsKeys(lines[..|lines| - 1]);
      SymbolsAreSymbols(lines[|lines| - 1]);
    }
  }

  // ----- merge -----

  /** Line i of the base: rewritten where it is the first about a symbol of the fragment. */
  function NewLine(base: seq<string>, frag: Dict, i: nat): string
    requires i < |base|
  {
    var line := Classify(base[i]);
    if line.Assign? && line.sym in frag.vals && Times(base[..i], line.sym) == 0
    then Render(line.sym, frag.vals[line.sym])
    else base[i]
  }

  function Body(base: seq<string>, frag: Dict, n: nat): (lines: seq<string>)
    requires n <= |base|
    ensures |lines| == n
  {
    if n == 0 then [] else Body(base, frag, n - 1) + [NewLine(base, frag, n - 1)]
  }

  /** The fragment's symbols the base does not mention, in the fragment's order. */
  function Extra(base: seq<string>, keys: seq<string>): seq<string> {
    if keys == [] then []
    else
      var key := keys[|keys| - 1];
      Extra(base, keys[..|keys| - 1]) + if Times(base, key) == 0 then [key] else []
  }

  function RenderAll(keys: seq<string>, frag: Dict): seq<string>
    requires forall k :: k in keys ==> k in frag.vals
  {
    if keys == [] then []
    else
      var key := keys[|keys| - 1];
      RenderAll(keys[..|keys| - 1], frag) + [Render(key, frag.vals[key])]
  }

  lemma {:induction false} ExtraKeys(base: seq<string>, keys: seq<string>)
    ensures forall k :: k in Extra(base, keys) <==> k in keys && Times(base, k) == 0
  {
    if keys != [] {
      var front, key := keys[..|keys| - 1], keys[|keys| - 1];
      ExtraKeys(base, front);
      assert keys == front + [key];
    }
  }

  function Absent(base: seq<string>): string -> bool { s => Times(base, s) == 0 }

  /** What is appended: the fragment's symbols of which the base says nothing, in the fragment's order. */
  lemma {:induction false} ExtraSelected(base: seq<string>, keys: seq<string>)
    ensures Selected(keys, Absent(base), Extra(base, keys))
  {
    if keys == [] {
      NoneSelected(Absent(base));
    } else {
      var front, key := keys[..|keys| - 1], keys[|keys| - 1];
      ExtraSelected(base, front);
      SelectMore(front, Absent(base), Extra(base, front), key);
      assert keys == front + [key];
      assert Absent(base)(key) == (Times(base, key) == 0);
      hide Selected, Absent, Times;
    }
  }

  /** A fragment's symbols are listed in the order of the first line about each. */
  lemma {:induction false} KeysInOrder(lines: seq<string>, i: nat, j: nat)
    requires i < j < |Parse(lines).keys|
    ensures exists n :: 0 <= n <= |lines|
                        && Times(lines[..n], Parse(lines).keys[i]) > 0 && Times(lines[..n], Parse(lines).keys[j]) == 0
  {
    hide Classify;
    var front := lines[..|lines| - 1];
    var before := Parse(front).keys;
    if j < |before| {
      KeysInOrder(front, i, j);
      var n :| 0 <= n <= |front| && Times(front[..n], before[i]) > 0 && Times(front[..n], before[j]) == 0;
      assert lines[..n] == front[..n];
    } else {
      var added := Parse(lines).keys[j];
      ParseKeepsLast(front, before[i]);
      ParseKeepsLast(front, added);
      ParseListsKeys(front);
      assert before[i] in before;
      assert Times(lines[..|front|], before[i]) > 0 && Times(lines[..|front|], added) == 0;
    }
  }

  function Merged(base: seq<string>, frag: Dict): seq<string>
    requires KeysListed(frag)
  {
    ExtraKeys(base, frag.keys);
    var extra := Extra(base, frag.keys);
    Body(base, frag, |base|) + if extra == [] then [] else ["", MARKER] + RenderAll(extra, frag)
  }

  /** The base, line for line, with the set of symbols written. */
  method RewriteBase(base: seq<string>, frag: Dict) returns (lines: seq<string>, written: set<string>)
    ensures lines == Body(base, frag, |base|)
    ensures forall s :: s in written <==> s in frag.vals && Times(base, s) > 0
  {
    hide Classify, Render;
    written := {};
    lines := [];
    for i := 0 to |base|
      invariant lines == Body(base, frag, i)
      invariant forall s :: s in written <==> s in frag.vals && Times(base[..i], s) > 0
    {
      assert base[..i + 1][..i] == base[..i];
      var line := Classify(base[i]);
      if line.Assign? && line.sym in frag.vals && line.sym !in written {
        lines := lines + [Render(line.sym, frag.vals[line.sym])];
        written := written + {line.sym};
      } else {
        lines := lines + [base[i]];
      }
    }
    assert base[..|base|] == base;
  }

  // What the fragment adds.
  method NotWritten(base: seq<string>, frag: Dict, written: set<string>) returns (extra: seq<string>)
    requires forall s :: s in written <==> s in frag.vals && Times(base, s) > 0
    requires forall i :: 0 <= i < |frag.keys| ==> frag.keys[i] in frag.vals
    ensures extra == Extra(base, frag.keys)
  {
    hide Times;
    extra := [];
    for i := 0 to |frag.keys|
      invariant extra == Extra(base, frag.keys[..i])
    {
      assert frag.keys[..i + 1][..i] == frag.keys[..i];
      if frag.keys[i] !in written { extra := extra + [frag.keys[i]]; }
    }
    assert frag.keys[..|frag.keys|] == frag.keys;
  }

  /** The program: rewrite the base in place, and append what the fragment adds. */
  method Merge(base: seq<string>, fragment: seq<string>) returns (out: seq<string>)
    ensures KeysListed(Parse(fragment)) && out == Merged(base, Parse(fragment))
  {
    var frag := ParseLines(fragment);
    ParseListsKeys(fragment);
    hide Parse, Times, Body, Extra, RenderAll;
    var lines, written := RewriteBase(base, frag);
    var extra := NotWritten(base, frag, written);
    ExtraKeys(base, frag.keys);
    out := lines;
    if extra != [] {
      out := out + ["", MARKER] + RenderAll(extra, frag);
      assert lines + (["", MARKER] + RenderAll(extra, frag)) == lines + ["", MARKER] + RenderAll(extra, frag);
    }
  }

  // ----- check -----

  /** The fragment's symbols whose value in the final file differs; one that is missing counts as switched off. */
  function Lost(keys: seq<string>, frag: Dict, final: Dict): seq<string>
    requires forall k :: k in keys ==> k in frag.vals
  {
    if keys == [] then []
    else
      var key := keys[|keys| - 1];
      var got := if key in final.vals then final.vals[key] else None;
      Lost(keys[..|keys| - 1], frag, final) + if got != frag.vals[key] then [key] else []
  }

  function Differs(frag: Dict, final: Dict): string -> bool {
    s => s in frag.vals && (if s in final.vals then final.vals[s] else None) != frag.vals[s]
  }

  /** What is reported lost: the fragment's symbols whose final value is another, in the fragment's order. */
  lemma {:induction false} LostSelected(keys: seq<string>, frag: Dict, final: Dict)
    requires forall k :: k in keys ==> k in frag.vals
    ensures Selected(keys, Differs(frag, final), Lost(keys, frag, final))
  {
    if keys == [] {
      NoneSelected(Differs(frag, final));
    } else {
      var front, key := keys[..|keys| - 1], keys[|keys| - 1];
      LostSelected(front, frag, final);
      SelectMore(front, Differs(frag, final), Lost(front, frag, final), key);
      assert keys == front + [key];
      hide Selected;
    }
  }

  method Check(fragment: seq<string>, finalLines: seq<string>) returns (lost: seq<string>)
    ensures KeysListed(Parse(fragment)) && lost == Lost(Parse(fragment).keys, Parse(fragment), Parse(finalLines))
  {
    var frag := ParseLines(fragment);
    var final := ParseLines(finalLines);
    ParseListsKeys(fragment);
    hide Parse;
    lost := [];
    for i := 0 to |frag.keys|
      invariant lost == Lost(frag.keys[..i], frag, final)
    {
      assert frag.keys[..i + 1][..i] == frag.keys[..i];
      var sym := frag.keys[i];
      var got := if sym in final.vals then final.vals[sym] else None;
      if got != frag.vals[sym] { lost := lost + [sym]; }
    }
    assert frag.keys[..|frag.keys|] == frag.keys;
  }

  // ----- what the merged file says -----

  ghost predicate Sound(frag: Dict) { KeysListed(frag) && forall s :: s in frag.vals ==> IsSymbol(s) }

  predicate Rewrites(base: seq<string>, frag: Dict, i: nat)
    requires i < |base|
  {
    var line := Classify(base[i]);
    line.Assign? && line.sym in frag.vals && Times(base[..i], line.sym) == 0
  }

  /** A rewritten line is about the same symbol and gives it the fragment's value. */
  lemma NewLineReads(base: seq<string>, frag: Dict, i: nat)
    requires i < |base| && Sound(frag)
    ensures Rewrites(base, frag, i) ==>
              Classify(NewLine(base, frag, i)) == Assign(Classify(base[i]).sym, frag.vals[Classify(base[i]).sym])
    ensures !Rewrites(base, frag, i) ==> NewLine(base, frag, i) == base[i]
  {
    hide Classify, Render, IsSymbol;
    if Rewrites(base, frag, i) {
      RenderReads(Classify(base[i]).sym, frag.vals[Classify(base[i]).sym]);
    }
  }

  /** The value a symbol has after the first n lines have been rewritten. */
  function BodyValue(base: seq<string>, frag: Dict, sym: string): Option<Value> {
    if sym in frag.vals && Times(base, sym) == 1 then Some(frag.vals[sym]) else Last(base, sym)
  }

  lemma BodyGrows(base: seq<string>, frag: Dict, n: nat)
    requires n < |base|
    ensures var body := Body(base, frag, n + 1);
            body[..n] == Body(base, frag, n) && body[n] == NewLine(base, frag, n)
    ensures base[..n + 1][..n] == base[..n]
  {}

  lemma {:induction false} BodyReads(base: seq<string>, frag: Dict, n: nat, sym: string)
    requires n <= |base| && Sound(frag)
    ensures Last(Body(base, frag, n), sym) == BodyValue(base[..n], frag, sym)
    ensures Times(Body(base, frag, n), sym) == Times(base[..n], sym)
  {
    hide Classify, NewLine, Sound, Body;
    if n == 0 {
      BodyEmpty(base, frag);
    } else {
      BodyReads(base, frag, n - 1, sym);
      NewLineReads(base, frag, n - 1);
      BodyGrows(base, frag, n - 1);
      ParseKeepsLast(base[..n - 1], sym);
      assert base[..n][n - 1] == base[n - 1];
    }
  }

  lemma BodyEmpty(base: seq<string>, frag: Dict)
    ensures Body(base, frag, 0) == []
  {}

  lemma {:induction false} LastOfSum(a: seq<string>, b: seq<string>, sym: string)
    ensures Last(a + b, sym) == if Last(b, sym).Some? then Last(b, sym) else Last(a, sym)
    ensures Times(a + b, sym) == Times(a, sym) + Times(b, sym)
  {
    hide Mentions, Classify;
    if b == [] {
      assert a + b == a;
    } else {
      var front := b[..|b| - 1];
      assert (a + b)[..|a + b| - 1] == a + front;
      LastOfSum(a, front, sym);
    }
  }

  lemma {:induction false} RenderAllReads(keys: seq<string>, frag: Dict, sym: string)
    requires Sound(frag) && forall k :: k in keys ==> k in frag.vals
    ensures Last(RenderAll(keys, frag), sym) == if sym in keys then Some(frag.vals[sym]) else None
  {
    hide Classify, Render, IsSymbol;
    if keys != [] {
      var front, key := keys[..|keys| - 1], keys[|keys| - 1];
      assert keys == front + [key];
      RenderAllReads(front, frag, sym);
      RenderReads(key, frag.vals[key]);
      assert RenderAll(keys, frag)[..|RenderAll(keys, frag)| - 1] == RenderAll(front, frag);
    }
  }

  lemma HeadingSaysNothing(sym: string)
    ensures Last(["", MARKER], sym) == None
  {
    HeadingOther();
    hide Classify;
    var heading := ["", MARKER];
    assert heading[..1][..0] == [];
    assert Last(heading[..1], sym) == Last(heading[..1][..0], sym);
    assert Last(heading, sym) == Last(heading[..1], sym);
  }

  /** The value of any symbol in the merged file. */
  lemma MergedReads(base: seq<string>, frag: Dict, sym: string)
    requires Sound(frag)
    ensures Last(Merged(base, frag), sym)
         == if sym in frag.vals && Times(base, sym) < 2 then Some(frag.vals[sym]) else Last(base, sym)
  {
    hide Classify, Render, IsSymbol, Mentions;
    var extra := Extra(base, frag.keys);
    ExtraKeys(base, frag.keys);
    BodyReads(base, frag, |base|, sym);
    assert base[..|base|] == base;
    ParseKeepsLast(base, sym);
    if extra != [] {
      HeadingSaysNothing(sym);
      RenderAllReads(extra, frag, sym);
      LastOfSum(["", MARKER], RenderAll(extra, frag), sym);
      LastOfSum(Body(base, frag, |base|), ["", MARKER] + RenderAll(extra, frag), sym);
    } else {
      assert Body(base, frag, |base|) + [] == Body(base, frag, |base|);
      if sym in frag.vals { assert sym in frag.keys; }
    }
  }

  /** The base overlaid by the fragment. */
  function Overlaid(base: seq<string>, frag: Dict, sym: string): Option<Value> {
    if sym in frag.vals then Some(frag.vals[sym]) else Last(base, sym)
  }

  /** Where the base gives a symbol of the fragment more than once, its last line already agrees. */
  ghost predicate RepeatsAgree(base: seq<string>, frag: Dict) {
    forall s :: s in frag.vals && Times(base, s) >= 2 ==> Last(base, s) == Some(frag.vals[s])
  }

  /** The merged file parses as the base overlaid by the fragment exactly when no repeated line of the base
      contradicts it: only the first is rewritten, and the last one wins. */
  lemma MergeOverlays(base: seq<string>, fragment: seq<string>)
    ensures Sound(Parse(fragment))
    ensures var frag := Parse(fragment);
            (forall s :: Get(Parse(Merged(base, frag)), s) == Overlaid(base, frag, s)) <==> RepeatsAgree(base, frag)
  {
    ParseListsKeys(fragment);
    var frag := Parse(fragment);
    hide Parse, Merged, Last, Times, Get, IsSymbol;
    forall s ensures Get(Parse(Merged(base, frag)), s)
                  == if s in frag.vals && Times(base, s) < 2 then Some(frag.vals[s]) else Last(base, s) {
      ParseKeepsLast(Merged(base, frag), s);
      MergedReads(base, frag, s);
    }
  }

  lemma {:induction false} LostKeys(keys: seq<string>, frag: Dict, final: Dict)
    requires forall k :: k in keys ==> k in frag.vals
    ensures Lost(keys, frag, final) == [] <==>
            forall k :: k in keys ==> frag.vals[k] == if k in final.vals then final.vals[k] else None
  {
    if keys != [] {
      var front, key := keys[..|keys| - 1], keys[|keys| - 1];
      assert keys == front + [key];
      LostKeys(front, frag, final);
    }
  }

  /** The check passes on the merged file under the same condition, and no other. */
  lemma CheckAfterMerge(base: seq<string>, fragment: seq<string>)
    ensures Sound(Parse(fragment))
    ensures var frag := Parse(fragment);
            Lost(frag.keys, frag, Parse(Merged(base, frag))) == [] <==> RepeatsAgree(base, frag)
  {
    ParseListsKeys(fragment);
    var frag := Parse(fragment);
    var final := Parse(Merged(base, frag));
    LostKeys(frag.keys, frag, final);
    hide Parse, Merged, Last, Times, IsSymbol, Lost;
    forall s | s in frag.vals
      ensures Get(final, s) == if Times(base, s) < 2 then Some(frag.vals[s]) else Last(base, s) {
      ParseKeepsLast(Merged(base, frag), s);
      MergedReads(base, frag, s);
    }
    forall s | s in frag.vals && Times(base, s) >= 2 ensures Last(base, s).Some? { ParseKeepsLast(base, s); }
  }

  /** A base that sets a symbol twice can defeat the fragment: the second line survives and wins. */
  lemma RepeatDefeatsFragment()
    ensures !RepeatsAgree(["CONFIG_A=y", "CONFIG_A=n"], Parse(["CONFIG_A=m"]))
  {
    var base, fragment := ["CONFIG_A=y", "CONFIG_A=n"], ["CONFIG_A=m"];
    var sym := "CONFIG_A";
    assert IsSymbol(sym);
    RenderReads(sym, Some("y"));
    RenderReads(sym, Some("n"));
    RenderReads(sym, Some("m"));
    assert Render(sym, Some("y")) == "CONFIG_A=y" && Render(sym, Some("n")) == "CONFIG_A=n"
        && Render(sym, Some("m")) == "CONFIG_A=m";
    hide Classify, Render;
    assert base[..1] == ["CONFIG_A=y"] && base[..1][..0] == [] && fragment[..0] == [];
    assert Times(base[..1], sym) == 1 && Times(base, sym) == 2;
    assert Parse(fragment).vals == map[][sym := Some("m")];
  }

  // ----- what the merge leaves alone -----

  /** Every line but the first about each symbol of the fragment keeps its text and its place. */
  lemma MergeKeepsLines(base: seq<string>, frag: Dict, i: nat)
    requires Sound(frag) && i < |base|
    ensures var out := Merged(base, frag);
            && |base| <= |out|
            && (if Rewrites(base, frag, i)
                then Classify(out[i]) == Assign(Classify(base[i]).sym, frag.vals[Classify(base[i]).sym])
                else out[i] == base[i])
  {
    hide Classify, Render, IsSymbol, NewLine;
    ExtraKeys(base, frag.keys);
    BodyAt(base, frag, |base|, i);
    NewLineReads(base, frag, i);
  }

  lemma {:induction false} BodyAt(base: seq<string>, frag: Dict, n: nat, i: nat)
    requires i < n <= |base|
    ensures Body(base, frag, n)[i] == NewLine(base, frag, i)
    ensures Body(base, frag, n)[..i] == Body(base, frag, i)
  {
    hide NewLine;
    if i < n - 1 {
      BodyAt(base, frag, n - 1, i);
      assert Body(base, frag, n)[..i] == Body(base, frag, n - 1)[..i];
    }
  }

  /** A line of the merged file that would be rewritten again already is what it would become. */
  lemma AlreadyMerged(base: seq<string>, frag: Dict, i: nat)
    requires Sound(frag) && i < |Merged(base, frag)|
    ensures NewLine(Merged(base, frag), frag, i) == Merged(base, frag)[i]
  {
    hide Classify, Render, IsSymbol, Mentions;
    var out, n := Merged(base, frag), |base|;
    ExtraKeys(base, frag.keys);
    if Rewrites(out, frag, i) {
      var sym := Classify(out[i]).sym;
      if i < n {
        BodyAt(base, frag, n, i);
        assert out[..i] == Body(base, frag, i);
        BodyReads(base, frag, i, sym);
        NewLineReads(base, frag, i);
      } else {
        ExtraLine(base, frag, i);
      }
    }
  }

  // A line of the appended part is a heading or a rendered symbol.
  lemma ExtraLine(base: seq<string>, frag: Dict, i: nat)
    requires Sound(frag) && |base| <= i < |Merged(base, frag)| && Classify(Merged(base, frag)[i]).Assign?
    ensures var line := Merged(base, frag)[i];
            var sym := Classify(line).sym;
            sym in frag.vals && line == Render(sym, frag.vals[sym])
  {
    var extra := Extra(base, frag.keys);
    ExtraKeys(base, frag.keys);
    var k := i - |base|;
    HeadingOther();
    hide Classify, Render, IsSymbol;
    assert k >= 2;
    RenderAllAt(extra, frag, k - 2);
    RenderReads(extra[k - 2], frag.vals[extra[k - 2]]);
  }

  lemma HeadingOther()
    ensures Classify("") == Other && Classify(MARKER) == Other
  {
    assert MARKER[2] == '-' && OFF_PREFIX[2] == 'C';
  }

  /** The merged file: the base line for line, and, if the fragment adds anything, an empty line, the heading, and
      one line for each symbol it adds. */
  lemma MergedShape(base: seq<string>, frag: Dict)
    requires KeysListed(frag)
    ensures var out, n, extra := Merged(base, frag), |base|, Extra(base, frag.keys);
            && out[..n] == Body(base, frag, n)
            && (extra == [] ==> |out| == n)
            && (extra != [] ==>
                  && |out| == n + 2 + |extra| && out[n] == "" && out[n + 1] == "# --- merged from the fragment ---"
                  && forall i :: 0 <= i < |extra| ==>
                       extra[i] in frag.vals && out[n + 2 + i] == Render(extra[i], frag.vals[extra[i]]))
  {
    var out, n, extra := Merged(base, frag), |base|, Extra(base, frag.keys);
    ExtraKeys(base, frag.keys);
    hide Body, Extra, Render;
    if extra != [] {
      var lines := RenderAll(extra, frag);
      RenderAllLength(extra, frag);
      assert out == Body(base, frag, n) + (["", MARKER] + lines);
      forall i | 0 <= i < |extra|
        ensures extra[i] in frag.vals && out[n + 2 + i] == Render(extra[i], frag.vals[extra[i]])
      {
        assert extra[i] in extra;
        RenderAllAt(extra, frag, i);
        assert out[n + 2 + i] == lines[i];
      }
    }
  }

  lemma {:induction false} RenderAllAt(keys: seq<string>, frag: Dict, i: nat)
    requires forall k :: k in keys ==> k in frag.vals
    requires i < |RenderAll(keys, frag)|
    ensures |RenderAll(keys, frag)| == |keys| && RenderAll(keys, frag)[i] == Render(keys[i], frag.vals[keys[i]])
  {
    hide Render;
    RenderAllLength(keys, frag);
    if i < |keys| - 1 {
      RenderAllLength(keys[..|keys| - 1], frag);
      RenderAllAt(keys[..|keys| - 1], frag, i);
    }
  }

  lemma {:induction false} RenderAllLength(keys: seq<string>, frag: Dict)
    requires forall k :: k in keys ==> k in frag.vals
    ensures |RenderAll(keys, frag)| == |keys|
  {
    if keys != [] { RenderAllLength(keys[..|keys| - 1], frag); }
  }

  lemma {:induction false} BodyIsSame(lines: seq<string>, frag: Dict, n: nat)
    requires n <= |lines| && forall i :: 0 <= i < |lines| ==> NewLine(lines, frag, i) == lines[i]
    ensures Body(lines, frag, n) == lines[..n]
  {
    hide NewLine;
    if n > 0 { BodyIsSame(lines, frag, n - 1); }
  }

  lemma {:induction false} NothingExtra(lines: seq<string>, keys: seq<string>)
    requires forall k :: k in keys ==> Times(lines, k) > 0
    ensures Extra(lines, keys) == []
  {
    if keys != [] { NothingExtra(lines, keys[..|keys| - 1]); }
  }

  /** Merging the same fragment again changes nothing, whatever the base repeats. */
  lemma MergeIdempotent(base: seq<string>, fragment: seq<string>)
    ensures Sound(Parse(fragment))
    ensures var frag := Parse(fragment);
            Merged(Merged(base, frag), frag) == Merged(base, frag)
  {
    ParseListsKeys(fragment);
    var frag := Parse(fragment);
    var out := Merged(base, frag);
    forall k | k in frag.keys ensures Times(out, k) > 0 {
      hide Merged, Body, Extra, IsSymbol;
      MergedReads(base, frag, k);
      ParseKeepsLast(base, k);
      ParseKeepsLast(out, k);
    }
    NothingExtra(out, frag.keys);
    hide Classify, NewLine, Extra, IsSymbol, Parse;
    forall i | 0 <= i < |out| ensures NewLine(out, frag, i) == out[i] { AlreadyMerged(base, frag, i); }
    BodyIsSame(out, frag, |out|);
    assert out[..|out|] == out;
  }
}
