/**
 * The field extractor: the labelled patterns for consumption, cooling capacity and
 * energy class (script5.py:30-33, 46-61) and the inverter keyword (script5.py:64).
 *
 * Each pattern is "one of a table of labels, then a tail". The tails are deterministic
 * from their start position, so `re.search` amounts to the leftmost position at which
 * some label is present and its tail matches.
 */
module FieldExtractor {
  import opened Wrappers
  import opened Text
  import opened PowerValue

  /** `[:\s]`: what may separate a label from its value. */
  predicate IsSepChar(c: char) {
    c == ':' || IsSpace(c)
  }

  /** `[A-G]` under `re.IGNORECASE`. */
  predicate IsGrade(c: char) {
    'a' <= c <= 'g' || 'A' <= c <= 'G'
  }

  predicate IsPlus(c: char) {
    c == '+'
  }

  /** The label alternatives of the three labelled fields, in the order the patterns list them. */
  const ConsumptionLabels: seq<string> := ["consommation", "puissance absorbée", "power consumption"]
  const CoolingLabels: seq<string> := ["puissance frigorifique", "cooling capacity", "capacity"]
  const EnergyClassLabels: seq<string> := ["classe énergétique", "energy class"]

  /** The keyword whose presence marks an inverter unit. */
  const InverterKeyword: string := "inverter"

  /** No two labels of a table can be present at the same position: any two of them differ at
      an index both have. */
  ghost predicate Unambiguous(labels: seq<string>) {
    forall a, b :: 0 <= a < b < |labels| ==> Differ(labels[a], labels[b])
  }

  /** `x` and `y` differ at an index both have, so neither is a prefix of the other. */
  ghost predicate Differ(x: string, y: string) {
    exists k :: 0 <= k < |x| && k < |y| && x[k] != y[k]
  }

  /** The three label tables are unambiguous, so the order of the alternatives never matters. */
  lemma TablesUnambiguous()
    ensures Unambiguous(ConsumptionLabels)
    ensures Unambiguous(CoolingLabels)
    ensures Unambiguous(EnergyClassLabels)
  {
    assert ConsumptionLabels[0][0] != ConsumptionLabels[1][0];
    assert ConsumptionLabels[0][0] != ConsumptionLabels[2][0];
    assert ConsumptionLabels[1][1] != ConsumptionLabels[2][1];
    assert CoolingLabels[0][0] != CoolingLabels[1][0];
    assert CoolingLabels[0][1] != CoolingLabels[2][1];
    assert CoolingLabels[1][1] != CoolingLabels[2][1];
    assert EnergyClassLabels[0][0] != EnergyClassLabels[1][0];
  }

  /** Two labels of an unambiguous table are never present at the same position. */
  lemma NotTwoLabels(s: string, i: nat, labels: seq<string>, a: nat, b: nat)
    requires Unambiguous(labels) && a < |labels| && b < |labels| && a != b
    requires WordAt(s, i, labels[a])
    ensures !WordAt(s, i, labels[b])
  {
    var x, y := if a < b then a else b, if a < b then b else a;
    assert Differ(labels[x], labels[y]);
    var k :| 0 <= k < |labels[x]| && k < |labels[y]| && labels[x][k] != labels[y][k];
    WordAtChar(s, i, labels[a], k);
  }

  /** `(label|label|...)` followed by `tail`, tried at `i`: the alternatives are tried in order
      and the first label present whose tail also matches gives the captured group. */
  function LabelledAt(s: string, i: nat, labels: seq<string>, tail: (string, nat) -> Option<string>): (r: Option<string>)
    ensures r.Some? ==> exists n :: 0 <= n < |labels| && WordAt(s, i, labels[n]) && r == tail(s, i + |labels[n]|)
    decreases |labels|
  {
    if |labels| == 0 then None
    else if WordAt(s, i, labels[0]) && tail(s, i + |labels[0]|).Some? then tail(s, i + |labels[0]|)
    else
      var r := LabelledAt(s, i, labels[1..], tail);
      assert r.Some? ==> exists n :: 0 <= n < |labels| && WordAt(s, i, labels[n]) && r == tail(s, i + |labels[n]|) by {
        if r.Some? {
          var n :| 0 <= n < |labels[1..]| && WordAt(s, i, labels[1..][n]) && r == tail(s, i + |labels[1..][n]|);
          assert labels[1..][n] == labels[n + 1];
        }
      }
      r
  }

  /** With no label present at `i`, nothing matches there. */
  lemma {:induction false} LabelledAtNone(s: string, i: nat, labels: seq<string>, tail: (string, nat) -> Option<string>)
    requires forall n :: 0 <= n < |labels| ==> !WordAt(s, i, labels[n])
    ensures LabelledAt(s, i, labels, tail) == None
    decreases |labels|
  {
    if |labels| > 0 {
      assert !WordAt(s, i, labels[0]);
      forall n | 0 <= n < |labels[1..]|
        ensures !WordAt(s, i, labels[1..][n])
      {
        assert labels[1..][n] == labels[n + 1];
      }
      LabelledAtNone(s, i, labels[1..], tail);
    }
  }

  /** In an unambiguous table, the label present at `i` alone decides: the result is its tail. */
  lemma {:induction false} LabelledAtUnique(s: string, i: nat, labels: seq<string>, tail: (string, nat) -> Option<string>, n: nat)
    requires Unambiguous(labels) && n < |labels| && WordAt(s, i, labels[n])
    ensures LabelledAt(s, i, labels, tail) == tail(s, i + |labels[n]|)
    decreases |labels|
  {
    var rest := labels[1..];
    assert Unambiguous(rest) by {
      forall a, b | 0 <= a < b < |rest|
        ensures Differ(rest[a], rest[b])
      {
        assert rest[a] == labels[a + 1] && rest[b] == labels[b + 1];
      }
    }
    if n == 0 {
      forall m | 0 <= m < |rest|
        ensures !WordAt(s, i, rest[m])
      {
        assert rest[m] == labels[m + 1];
        NotTwoLabels(s, i, labels, 0, m + 1);
      }
      LabelledAtNone(s, i, rest, tail);
    } else {
      NotTwoLabels(s, i, labels, n, 0);
      assert rest[n - 1] == labels[n];
      LabelledAtUnique(s, i, rest, tail, n - 1);
    }
  }

  /** `re.search` of a labelled pattern: the group captured at the leftmost position that matches. */
  function FindField(s: string, labels: seq<string>, tail: (string, nat) -> Option<string>): Option<string> {
    match Leftmost(0, |s|, (i: nat) => LabelledAt(s, i, labels, tail))
    case None => None
    case Some((_, g)) => Some(g)
  }

  /** Before position `i`, no label present in `s` is followed by a match of `tail`. */
  ghost predicate TailsFailBefore(s: string, labels: seq<string>, tail: (string, nat) -> Option<string>, i: nat) {
    forall q: nat, n': nat :: q < i && n' < |labels| && WordAt(s, q, labels[n']) ==> tail(s, q + |labels[n']|).None?
  }

  /** The leftmost position where a label is present and its tail matches decides the group;
      later matches are never looked at. */
  lemma FindFieldLeftmost(s: string, labels: seq<string>, tail: (string, nat) -> Option<string>, i: nat, n: nat, g: string)
    requires Unambiguous(labels) && i <= |s| && n < |labels| && WordAt(s, i, labels[n])
    requires tail(s, i + |labels[n]|) == Some(g)
    requires TailsFailBefore(s, labels, tail, i)
    ensures FindField(s, labels, tail) == Some(g)
  {
    var at := (p: nat) => LabelledAt(s, p, labels, tail);
    LabelledAtUnique(s, i, labels, tail, n);
    forall q: nat | q < i
      ensures at(q).None?
    {
    }
    LeftmostAt(0, |s|, at, i, g);
  }

  /** Where no label is followed by a matching tail, the field is absent. */
  lemma FindFieldAbsent(s: string, labels: seq<string>, tail: (string, nat) -> Option<string>)
    requires forall q: nat, n: nat :: n < |labels| && WordAt(s, q, labels[n]) ==> tail(s, q + |labels[n]|).None?
    ensures FindField(s, labels, tail) == None
  {
    var at := (p: nat) => LabelledAt(s, p, labels, tail);
    forall q: nat | q <= |s|
      ensures at(q).None?
    {
    }
  }

  /** Declarative reading of `[:\s]*([\d.,]+\s*(w|kw|btu))` matching from `j`: separators fill
      `s[j..k]`, the number is `s[k..l]`, blanks fill `s[l..m]` and the unit starts at `m`. */
  ghost predicate PowerTailMatch(s: string, j: nat, k: nat, l: nat, m: nat, u: Unit) {
    AllIn(s, j, k, IsSepChar) && k < l && AllIn(s, k, l, IsNumChar) && AllIn(s, l, m, IsSpace) && WordAt(s, m, Token(u))
  }

  /** The tail of the consumption and cooling patterns tried at `j`: group 2, the number with
      its blanks and unit. */
  function PowerTail(s: string, j: nat): Option<string> {
    if j > |s| then None
    else
      var k := RunEnd(s, j, IsSepChar);
      var l := RunEnd(s, k, IsNumChar);
      var m := RunEnd(s, l, IsSpace);
      if l == k then None
      else match UnitAt(s, m)
        case None => None
        case Some(u) => Some(s[k..m + |Token(u)|])
  }

  /** However the tail matches, the scanner finds it with the same group: the three greedy runs
      are each followed by a character the next part cannot start with. */
  lemma PowerTailComplete(s: string, j: nat, k: nat, l: nat, m: nat, u: Unit)
    requires PowerTailMatch(s, j, k, l, m, u)
    ensures PowerTail(s, j) == Some(s[k..m + |Token(u)|])
  {
    TokenStart(s, m, u);
    UnitAtUnique(s, m, u);
    assert IsNumChar(s[k]);
    RunEndUnique(s, j, k, IsSepChar);
    RunEndUnique(s, k, l, IsNumChar);
    RunEndUnique(s, l, m, IsSpace);
  }

  /** Every success of the tail scanner is a match of the tail. */
  lemma PowerTailSound(s: string, j: nat) returns (k: nat, l: nat, m: nat, u: Unit)
    ensures PowerTail(s, j).Some? ==> PowerTailMatch(s, j, k, l, m, u) && PowerTail(s, j) == Some(s[k..m + |Token(u)|])
  {
    k, l, m, u := 0, 0, 0, Watt;
    if PowerTail(s, j).Some? {
      k := RunEnd(s, j, IsSepChar);
      l := RunEnd(s, k, IsNumChar);
      m := RunEnd(s, l, IsSpace);
      u := UnitAt(s, m).value;
    }
  }

  /** The tail of the energy-class pattern, `[:\s]*([A-G][\+]*)`, matching from `j` with the
      letter at `k`; the greedy star takes every `+` that follows, up to `m`. */
  ghost predicate ClassTailMatch(s: string, j: nat, k: nat, m: nat) {
    AllIn(s, j, k, IsSepChar) && k < |s| && IsGrade(s[k]) && AllIn(s, k + 1, m, IsPlus) && (m == |s| || s[m] != '+')
  }

  /** A grade as captured: one letter a-g in either case, then any number of `+`. */
  predicate IsGradeText(g: string) {
    |g| > 0 && IsGrade(g[0]) && forall k :: 1 <= k < |g| ==> g[k] == '+'
  }

  /** The energy-class tail tried at `j`: group 2, the letter and its `+` signs. */
  function ClassTail(s: string, j: nat): (r: Option<string>)
    ensures r.Some? ==> IsGradeText(r.value)
    ensures r.Some? && IsLowerText(s) ==> 'a' <= r.value[0] <= 'g'
  {
    if j > |s| then None
    else
      var k := RunEnd(s, j, IsSepChar);
      if k < |s| && IsGrade(s[k]) then Some(s[k..RunEnd(s, k + 1, IsPlus)]) else None
  }

  /** However the energy-class tail matches, the scanner captures the same grade. */
  lemma ClassTailComplete(s: string, j: nat, k: nat, m: nat)
    requires ClassTailMatch(s, j, k, m)
    ensures ClassTail(s, j) == Some(s[k..m])
  {
    RunEndUnique(s, j, k, IsSepChar);
    RunEndUnique(s, k + 1, m, IsPlus);
  }

  /** Every success of the energy-class tail scanner is a match of the tail. */
  lemma ClassTailSound(s: string, j: nat) returns (k: nat, m: nat)
    ensures ClassTail(s, j).Some? ==> ClassTailMatch(s, j, k, m) && ClassTail(s, j) == Some(s[k..m])
  {
    k, m := 0, 0;
    if ClassTail(s, j).Some? {
      k := RunEnd(s, j, IsSepChar);
      m := RunEnd(s, k + 1, IsPlus);
    }
  }

  /** A consumption or cooling match at `i`: label `n` of the table is present there and its
      tail matches, capturing `s[k..m + |Token(u)|]`. */
  ghost predicate PowerFieldMatch(s: string, labels: seq<string>, i: nat, n: nat, k: nat, l: nat, m: nat, u: Unit) {
    n < |labels| && WordAt(s, i, labels[n]) && PowerTailMatch(s, i + |labels[n]|, k, l, m, u)
  }

  /** An energy-class match at `i`: label `n` is present there and the grade is `s[k..m]`. */
  ghost predicate ClassFieldMatch(s: string, i: nat, n: nat, k: nat, m: nat) {
    n < |EnergyClassLabels| && WordAt(s, i, EnergyClassLabels[n]) && ClassTailMatch(s, i + |EnergyClassLabels[n]|, k, m)
  }

  /** A consumption or cooling field: the power value of the group captured by the leftmost
      match of the labelled pattern (script5.py:46-52 and 55-61). */
  function PowerField(s: string, labels: seq<string>): (r: Option<real>)
    ensures r.Some? ==> r.value >= 0.0
  {
    match FindField(s, labels, PowerTail)
    case None => None
    case Some(g) => ParsePowerValue(g)
  }

  /** `find_energy_class`: the grade captured by the leftmost match, unchanged. */
  function FindEnergyClass(s: string): (r: Option<string>)
    ensures r.Some? ==> IsGradeText(r.value)
    ensures r.Some? && IsLowerText(s) ==> 'a' <= r.value[0] <= 'g'
  {
    var r := FindField(s, EnergyClassLabels, ClassTail);
    assert r.Some? ==> IsGradeText(r.value) && (IsLowerText(s) ==> 'a' <= r.value[0] <= 'g') by {
      if r.Some? {
        var at := (i: nat) => LabelledAt(s, i, EnergyClassLabels, ClassTail);
        var p := Leftmost(0, |s|, at).value.0;
        var n :| 0 <= n < |EnergyClassLabels| && WordAt(s, p, EnergyClassLabels[n]) && at(p) == ClassTail(s, p + |EnergyClassLabels[n]|);
      }
    }
    r
  }

  /** Label `n` present at `q` without a matching tail: the tail scanner fails there too. */
  lemma PowerTailNone(s: string, labels: seq<string>, q: nat, n: nat)
    requires n < |labels| && WordAt(s, q, labels[n])
    requires forall k: nat, l: nat, m: nat, u: Unit :: !PowerFieldMatch(s, labels, q, n, k, l, m, u)
    ensures PowerTail(s, q + |labels[n]|).None?
  {
    var k, l, m, u := PowerTailSound(s, q + |labels[n]|);
    assert !PowerFieldMatch(s, labels, q, n, k, l, m, u);
  }

  /** Before the leftmost match, no label present is followed by a matching power tail. */
  lemma PowerTailsBefore(s: string, labels: seq<string>, i: nat)
    requires forall q: nat, n': nat, k': nat, l': nat, m': nat, u': Unit ::
      q < i ==> !PowerFieldMatch(s, labels, q, n', k', l', m', u')
    ensures TailsFailBefore(s, labels, PowerTail, i)
  {
    forall q: nat, n': nat | q < i && n' < |labels| && WordAt(s, q, labels[n'])
      ensures PowerTail(s, q + |labels[n']|).None?
    {
      PowerTailNone(s, labels, q, n');
    }
  }

  /** A labelled power field is read from the leftmost match of its pattern only: its value is
      that match's group parsed by `parse_power_value`, `None` included, whatever follows. */
  lemma PowerFieldLeftmost(s: string, labels: seq<string>, i: nat, n: nat, k: nat, l: nat, m: nat, u: Unit)
    requires Unambiguous(labels)
    requires PowerFieldMatch(s, labels, i, n, k, l, m, u)
    requires forall q: nat, n': nat, k': nat, l': nat, m': nat, u': Unit ::
      q < i ==> !PowerFieldMatch(s, labels, q, n', k', l', m', u')
    ensures PowerField(s, labels) == ParsePowerValue(s[k..m + |Token(u)|])
  {
    PowerTailsBefore(s, labels, i);
    PowerGroupLeftmost(s, labels, i, n, k, l, m, u);
  }

  /** The group captured by the leftmost match of a labelled power pattern. */
  lemma PowerGroupLeftmost(s: string, labels: seq<string>, i: nat, n: nat, k: nat, l: nat, m: nat, u: Unit)
    requires Unambiguous(labels)
    requires PowerFieldMatch(s, labels, i, n, k, l, m, u)
    requires TailsFailBefore(s, labels, PowerTail, i)
    ensures FindField(s, labels, PowerTail) == Some(s[k..m + |Token(u)|])
  {
    PowerFieldTail(s, labels, i, n, k, l, m, u);
    PowerFindFieldLeftmost(s, labels, i, n, s[k..m + |Token(u)|]);
  }

  /** At a match, the tail scanner run after the label captures the match's group. */
  lemma PowerFieldTail(s: string, labels: seq<string>, i: nat, n: nat, k: nat, l: nat, m: nat, u: Unit)
    requires PowerFieldMatch(s, labels, i, n, k, l, m, u)
    ensures i <= |s| && n < |labels| && WordAt(s, i, labels[n])
    ensures k <= m + |Token(u)| <= |s| && PowerTail(s, i + |labels[n]|) == Some(s[k..m + |Token(u)|])
  {
    PowerTailCompleteAfter(s, i + |labels[n]|, k, l, m, u);
  }

  /** `PowerTailComplete`, with the bounds of the group spelled out. */
  lemma PowerTailCompleteAfter(s: string, j: nat, k: nat, l: nat, m: nat, u: Unit)
    requires PowerTailMatch(s, j, k, l, m, u)
    ensures j <= |s| && k <= m + |Token(u)| <= |s| && PowerTail(s, j) == Some(s[k..m + |Token(u)|])
  {
    PowerTailComplete(s, j, k, l, m, u);
  }

  /** `FindFieldLeftmost` for the power tail. */
  lemma PowerFindFieldLeftmost(s: string, labels: seq<string>, i: nat, n: nat, g: string)
    requires Unambiguous(labels) && i <= |s| && n < |labels| && WordAt(s, i, labels[n])
    requires PowerTail(s, i + |labels[n]|) == Some(g)
    requires TailsFailBefore(s, labels, PowerTail, i)
    ensures FindField(s, labels, PowerTail) == Some(g)
  {
    FindFieldLeftmost(s, labels, PowerTail, i, n, g);
  }

  /** Without a match of the labelled pattern the field is absent. */
  lemma PowerFieldAbsent(s: string, labels: seq<string>)
    requires forall q: nat, n: nat, k: nat, l: nat, m: nat, u: Unit :: !PowerFieldMatch(s, labels, q, n, k, l, m, u)
    ensures PowerField(s, labels) == None
  {
    forall q: nat, n: nat | n < |labels| && WordAt(s, q, labels[n])
      ensures PowerTail(s, q + |labels[n]|).None?
    {
      PowerTailNone(s, labels, q, n);
    }
    FindFieldAbsent(s, labels, PowerTail);
  }

  /** Label `n` present at `q` without a matching grade: the grade scanner fails there too. */
  lemma ClassTailNone(s: string, q: nat, n: nat)
    requires n < |EnergyClassLabels| && WordAt(s, q, EnergyClassLabels[n])
    requires forall k: nat, m: nat :: !ClassFieldMatch(s, q, n, k, m)
    ensures ClassTail(s, q + |EnergyClassLabels[n]|).None?
  {
    var k, m := ClassTailSound(s, q + |EnergyClassLabels[n]|);
    assert !ClassFieldMatch(s, q, n, k, m);
  }

  /** Before the leftmost match, no energy-class label is followed by a grade. */
  lemma ClassTailsBefore(s: string, i: nat)
    requires forall q: nat, n': nat, k': nat, m': nat :: q < i ==> !ClassFieldMatch(s, q, n', k', m')
    ensures TailsFailBefore(s, EnergyClassLabels, ClassTail, i)
  {
    forall q: nat, n': nat | q < i && n' < |EnergyClassLabels| && WordAt(s, q, EnergyClassLabels[n'])
      ensures ClassTail(s, q + |EnergyClassLabels[n']|).None?
    {
      ClassTailNone(s, q, n');
    }
  }

  /** The energy class is the grade captured by the leftmost match, with every `+` after the
      letter and the letter's case as in the text. */
  lemma EnergyClassLeftmost(s: string, i: nat, n: nat, k: nat, m: nat)
    requires ClassFieldMatch(s, i, n, k, m)
    requires forall q: nat, n': nat, k': nat, m': nat :: q < i ==> !ClassFieldMatch(s, q, n', k', m')
    ensures FindEnergyClass(s) == Some(s[k..m])
  {
    TablesUnambiguous();
    ClassTailComplete(s, i + |EnergyClassLabels[n]|, k, m);
    ClassTailsBefore(s, i);
    FindFieldLeftmost(s, EnergyClassLabels, ClassTail, i, n, s[k..m]);
  }

  /** Without a match of the energy-class pattern the class is absent. */
  lemma EnergyClassAbsent(s: string)
    requires forall q: nat, n: nat, k: nat, m: nat :: !ClassFieldMatch(s, q, n, k, m)
    ensures FindEnergyClass(s) == None
  {
    forall q: nat, n: nat | n < |EnergyClassLabels| && WordAt(s, q, EnergyClassLabels[n])
      ensures ClassTail(s, q + |EnergyClassLabels[n]|).None?
    {
      ClassTailNone(s, q, n);
    }
    FindFieldAbsent(s, EnergyClassLabels, ClassTail);
  }

  /** The leftmost cooling match in "capacity: 1.2.3 w; capacity: 5 w". */
  lemma MalformedFirstMatch()
    ensures PowerFieldMatch("capacity: 1.2.3 w; capacity: 5 w", CoolingLabels, 0, 2, 10, 15, 16, Watt)
  {
    assert WordAt("capacity: 1.2.3 w; capacity: 5 w", 0, CoolingLabels[2]);
    assert PowerTailMatch("capacity: 1.2.3 w; capacity: 5 w", 8, 10, 15, 16, Watt);
  }

  /** The group that match captures. */
  lemma MalformedFirstGroup()
    ensures "capacity: 1.2.3 w; capacity: 5 w"[10..17] == "1.2.3 w"
  {
    assert "capacity: 1.2.3 w; capacity: 5 w"[10..17] == "capacity: 1.2.3 w; capacity: 5 w"[10..][..7];
    assert "capacity: 1.2.3 w; capacity: 5 w"[10..] == "1.2.3 w; capacity: 5 w";
  }

  /** The leftmost cooling figure is malformed, so the field is `None`; the well-formed figure
      after it is never tried. */
  lemma MalformedFirstExample(s: string)
    requires s == "capacity: 1.2.3 w; capacity: 5 w"
    ensures PowerField(s, CoolingLabels) == None
  {
    TablesUnambiguous();
    MalformedFirstMatch();
    PowerFieldLeftmost(s, CoolingLabels, 0, 2, 10, 15, 16, Watt);
    MalformedFirstGroup();
    ParseMalformedExample("1.2.3 w");
  }

  /** The leftmost energy-class match in "energy class: a+++". */
  lemma EnergyClassPlusMatch()
    ensures ClassFieldMatch("energy class: a+++", 0, 1, 14, 18)
    ensures "energy class: a+++"[14..18] == "a+++"
  {
    assert WordAt("energy class: a+++", 0, EnergyClassLabels[1]);
    assert ClassTailMatch("energy class: a+++", 12, 14, 18);
  }

  /** The grade keeps all its `+` signs. */
  lemma EnergyClassPlusExample()
    ensures FindEnergyClass("energy class: a+++") == Some("a+++")
  {
    EnergyClassPlusMatch();
    EnergyClassLeftmost("energy class: a+++", 0, 1, 14, 18);
  }
}
