/**
 current_markdown: one register decides, line by line, whether the text is inside a section
 marked Historical. Sections nest, and yet one level is all the machine remembers.
 */
module HistoricalSections {
  import opened Options
  import opened Selections

  // How a line reads: plain text, or a heading of level 1 to 6 that may say Historical.
  datatype Reading = Plain | Heading(level: nat, historical: bool)

  // The two regular expressions of the script, as one classification of lines.
  type Classifier = string -> Reading

  predicate Opens(read: Classifier, line: string) {
    read(line).Heading? && read(line).historical
  }

  // A later heading at the same level or a shallower one ends a section.
  predicate Closes(read: Classifier, line: string, level: nat) {
    read(line).Heading? && read(line).level <= level
  }

  // The Historical section that starts at line h still covers line i.
  predicate Covered(read: Classifier, lines: seq<string>, h: nat, i: nat)
    requires i < |lines|
  {
    && h <= i && Opens(read, lines[h])
    && forall j :: h < j <= i ==> !Closes(read, lines[j], read(lines[h]).level)
  }

  // The line lies in some Historical section, at whatever depth.
  predicate Dropped(read: Classifier, lines: seq<string>, i: nat)
    requires i < |lines|
  {
    exists h :: 0 <= h <= i && Covered(read, lines, h, i)
  }

  function Current(read: Classifier, lines: seq<string>, n: nat): seq<string>
    requires n <= |lines|
  {
    if n == 0 then []
    else if Dropped(read, lines, n - 1) then Current(read, lines, n - 1)
    else Current(read, lines, n - 1) + [lines[n - 1]]
  }

  // The register: the level of the outermost open Historical section.
  ghost predicate RegisterOk(read: Classifier, lines: seq<string>, n: nat, register: Option<nat>)
    requires n <= |lines|
  {
    match register
    case None => n == 0 || !Dropped(read, lines, n - 1)
    case Some(level) =>
      && n > 0
      && (exists h :: 0 <= h < n && Covered(read, lines, h, n - 1) && read(lines[h]).level == level)
      && (forall h :: 0 <= h < n && Covered(read, lines, h, n - 1) ==> level <= read(lines[h]).level)
  }

  // The loop body's effect on the register.
  function Advance(register: Option<nat>, r: Reading): Option<nat> {
    match r
    case Plain => register
    case Heading(level, historical) =>
      var open := if register.Some? && level <= register.value then None else register;
      if open.None? && historical then Some(level) else open
  }

  lemma RegisterAdvances(read: Classifier, lines: seq<string>, n: nat, register: Option<nat>)
    requires n < |lines| && RegisterOk(read, lines, n, register)
    ensures RegisterOk(read, lines, n + 1, Advance(register, read(lines[n])))
    ensures Advance(register, read(lines[n])).None? <==> !Dropped(read, lines, n)
  {
    var next := Advance(register, read(lines[n]));
    forall h | 0 <= h < n
      ensures Covered(read, lines, h, n) <==>
                Covered(read, lines, h, n - 1) && !Closes(read, lines[n], read(lines[h]).level)
    {
    }
    if register.Some? && !Closes(read, lines[n], register.value) {
      var h :| 0 <= h < n && Covered(read, lines, h, n - 1) && read(lines[h]).level == register.value;
      assert Covered(read, lines, h, n);
    } else if next.Some? {
      assert Covered(read, lines, n, n);
    }
  }

  // A line at or below a heading that says Historical, with only deeper headings in between.
  ghost predicate InHistoricalSection(read: Classifier, lines: seq<string>, i: nat)
    requires i < |lines|
  {
    exists h :: 0 <= h <= i && read(lines[h]).Heading? && read(lines[h]).historical
      && forall j :: h < j <= i && read(lines[j]).Heading? ==> read(lines[j]).level > read(lines[h]).level
  }

  lemma DroppedIff(read: Classifier, lines: seq<string>, i: nat)
    requires i < |lines|
    ensures Dropped(read, lines, i) <==> InHistoricalSection(read, lines, i)
  {
    if Dropped(read, lines, i) {
      var h :| 0 <= h <= i && Covered(read, lines, h, i);
      assert forall j :: h < j <= i ==> !Closes(read, lines[j], read(lines[h]).level);
    }
    if InHistoricalSection(read, lines, i) {
      var h :| 0 <= h <= i && read(lines[h]).Heading? && read(lines[h]).historical
        && forall j :: h < j <= i && read(lines[j]).Heading? ==> read(lines[j]).level > read(lines[h]).level;
      assert Covered(read, lines, h, i);
    }
  }

  // The positions of the first n lines that are kept.
  ghost predicate KeptAt(read: Classifier, lines: seq<string>, n: nat, at: seq<nat>)
    requires n <= |lines|
  {
    && Ascending(at, n)
    && forall i :: 0 <= i < n ==> (i in at <==> !InHistoricalSection(read, lines, i))
  }

  lemma KeptAtNext(read: Classifier, lines: seq<string>, n: nat, before: seq<nat>)
    requires n < |lines| && KeptAt(read, lines, n, before)
    ensures KeptAt(read, lines, n + 1, if InHistoricalSection(read, lines, n) then before else before + [n])
  {
    hide InHistoricalSection;
    AscendingSnoc(before, n);
    assert n !in before;
    assert forall i :: i in before + [n] <==> i in before || i == n;
  }

  lemma PickedNext(lines: seq<string>, n: nat, at: seq<nat>)
    requires n < |lines| && Ascending(at, n)
    ensures Ascending(at + [n], n + 1) && Picked(lines[..n + 1], at) == Picked(lines[..n], at)
    ensures Picked(lines[..n + 1], at + [n]) == Picked(lines[..n], at) + [lines[n]]
  {
    assert lines[..n + 1] == lines[..n] + [lines[n]];
    PickedSnoc(lines[..n], at, lines[n]);
  }

  ghost predicate IsPicked(read: Classifier, lines: seq<string>, n: nat, at: seq<nat>)
    requires n <= |lines|
  {
    KeptAt(read, lines, n, at) && Current(read, lines, n) == Picked(lines[..n], at)
  }

  lemma NothingIsPicked(read: Classifier, lines: seq<string>)
    ensures IsPicked(read, lines, 0, [])
  {
    hide InHistoricalSection;
  }

  lemma NextIsPicked(read: Classifier, lines: seq<string>, n: nat, before: seq<nat>)
    requires n < |lines| && IsPicked(read, lines, n, before)
    ensures IsPicked(read, lines, n + 1, if Dropped(read, lines, n) then before else before + [n])
  {
    assert Ascending(before, n);
    hide InHistoricalSection, Dropped, Picked, Ascending;
    DroppedIff(read, lines, n);
    KeptAtNext(read, lines, n, before);
    PickedNext(lines, n, before);
    hide KeptAt;
  }

  lemma {:induction false} CurrentIsPicked(read: Classifier, lines: seq<string>, n: nat) returns (at: seq<nat>)
    requires n <= |lines|
    ensures IsPicked(read, lines, n, at)
  {
    hide IsPicked, Dropped, Current, InHistoricalSection, Picked, Ascending, KeptAt;
    if n == 0 {
      at := [];
      NothingIsPicked(read, lines);
    } else {
      var before := CurrentIsPicked(read, lines, n - 1);
      NextIsPicked(read, lines, n - 1, before);
      at := if Dropped(read, lines, n - 1) then before else before + [n - 1];
    }
  }

  /** What the pass keeps is exactly the lines outside every Historical section, in order. */
  method CurrentMarkdown(read: Classifier, lines: seq<string>) returns (kept: seq<string>)
    ensures kept == Current(read, lines, |lines|)
    ensures exists at :: KeptAt(read, lines, |lines|, at) && kept == Picked(lines, at)
  {
    ghost var at := CurrentIsPicked(read, lines, |lines|);
    assert lines[..|lines|] == lines;
    kept := [];
    var register: Option<nat> := None;
    for n := 0 to |lines|
      invariant kept == Current(read, lines, n)
      invariant RegisterOk(read, lines, n, register)
    {
      var line := lines[n];
      var next := Advance(register, read(line));
      RegisterAdvances(read, lines, n, register);
      register := next;
      if register.None? {
        kept := kept + [line];
      }
    }
  }

  /** No kept line is a Historical heading. */
  lemma {:induction false} KeepsNoHistoricalHeading(read: Classifier, lines: seq<string>, n: nat)
    requires n <= |lines|
    ensures forall line :: line in Current(read, lines, n) ==> !Opens(read, line)
  {
    if n > 0 {
      KeepsNoHistoricalHeading(read, lines, n - 1);
      if Opens(read, lines[n - 1]) {
        assert Covered(read, lines, n - 1, n - 1);
      }
    }
  }

  /** Text without a Historical heading is left alone. */
  lemma {:induction false} NothingHistorical(read: Classifier, lines: seq<string>, n: nat)
    requires n <= |lines| && forall line :: line in lines ==> !Opens(read, line)
    ensures Current(read, lines, n) == lines[..n]
  {
    if n > 0 {
      NothingHistorical(read, lines, n - 1);
      assert !Dropped(read, lines, n - 1);
      assert lines[..n] == lines[..n - 1] + [lines[n - 1]];
    }
  }

  /** A second pass changes nothing. */
  lemma PassIsIdempotent(read: Classifier, lines: seq<string>)
    ensures
      var once := Current(read, lines, |lines|);
      Current(read, once, |once|) == once
  {
    var once := Current(read, lines, |lines|);
    KeepsNoHistoricalHeading(read, lines, |lines|);
    NothingHistorical(read, once, |once|);
    assert once[..|once|] == once;
  }
}
