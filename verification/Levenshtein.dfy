/** The edit distance behind the spelling suggestions of lib_app/Parser.cpp. */
module Levenshtein {
  import opened Basics

  function Substitution(a: char, b: char): nat { if a == b then 0 else 1 }

  /** The recursive Levenshtein distance. */
  function Distance(s: string, t: string): nat
    decreases |s| + |t|
  {
    if s == "" then |t|
    else if t == "" then |s|
    else Min(Min(Distance(Init(s), t), Distance(s, Init(t))) + 1,
             Distance(Init(s), Init(t)) + Substitution(Last(s), Last(t)))
  }

  // ---- A metric ----

  lemma {:induction false} DistanceToSelf(s: string)
    ensures Distance(s, s) == 0
  {
    if s != "" {
      DistanceToSelf(Init(s));
    }
  }

  lemma {:induction false} ZeroMeansEqual(s: string, t: string)
    requires Distance(s, t) == 0
    ensures s == t
    decreases |s|
  {
    if s != "" && t != "" {
      ZeroMeansEqual(Init(s), Init(t));
      assert s == Init(s) + [Last(s)] && t == Init(t) + [Last(t)];
    }
  }

  lemma {:induction false} Symmetric(s: string, t: string)
    ensures Distance(s, t) == Distance(t, s)
    decreases |s| + |t|
  {
    if s != "" && t != "" {
      Symmetric(Init(s), t);
      Symmetric(s, Init(t));
      Symmetric(Init(s), Init(t));
    }
  }

  lemma {:induction false} AtMostLonger(s: string, t: string)
    ensures Distance(s, t) <= Max(|s|, |t|)
    decreases |s|
  {
    if s != "" && t != "" {
      AtMostLonger(Init(s), Init(t));
    }
  }

  lemma {:induction false} AtLeastLengthGap(s: string, t: string)
    ensures |s| <= |t| + Distance(s, t) && |t| <= |s| + Distance(s, t)
    decreases |s| + |t|
  {
    if s != "" && t != "" {
      AtLeastLengthGap(Init(s), t);
      AtLeastLengthGap(s, Init(t));
      AtLeastLengthGap(Init(s), Init(t));
    }
  }

  /** Every way of going on from the last characters is an upper bound. */
  lemma Steps(s: string, t: string)
    ensures s != "" ==> Distance(s, t) <= Distance(Init(s), t) + 1
    ensures t != "" ==> Distance(s, t) <= Distance(s, Init(t)) + 1
    ensures s != "" && t != "" ==> Distance(s, t) <= Distance(Init(s), Init(t)) + Substitution(Last(s), Last(t))
  {
  }

  lemma {:induction false} Triangle(s: string, t: string, u: string)
    ensures Distance(s, u) <= Distance(s, t) + Distance(t, u)
    decreases |s| + |t| + |u|
  {
    if s == "" {
      AtLeastLengthGap(t, u);
    } else if u == "" {
      AtLeastLengthGap(s, t);
    } else if t == "" {
      AtMostLonger(s, u);
    } else {
      Triangle(Init(s), t, u);
      Triangle(s, t, Init(u));
      Triangle(s, Init(t), u);
      Triangle(s, Init(t), Init(u));
      Triangle(Init(s), Init(t), u);
      Triangle(Init(s), Init(t), Init(u));
      Steps(s, u);
    }
  }

  /** Equal last characters need no edit, which is why the loop may skip the minimum. */
  lemma EqualLastCharacters(s: string, t: string)
    requires s != "" && t != "" && Last(s) == Last(t)
    ensures Distance(s, t) == Distance(Init(s), Init(t))
  {
    DistanceToSelf(Init(s));
    DistanceToSelf(Init(t));
    Steps(s, Init(s));
    Steps(Init(t), t);
    Steps(t, Init(t));
    Steps(Init(s), s);
    Triangle(Init(s), t, Init(t));
    Triangle(Init(s), s, Init(t));
  }

  // ---- Edit scripts ----

  datatype Edit = Insert(at: nat, c: char) | Delete(at: nat) | Replace(at: nat, c: char)

  predicate Fits(e: Edit, s: string) { if e.Insert? then e.at <= |s| else e.at < |s| }

  function Apply(e: Edit, s: string): string
    requires Fits(e, s)
  {
    match e
    case Insert(at, c) => s[..at] + [c] + s[at..]
    case Delete(at) => s[..at] + s[at + 1..]
    case Replace(at, c) => s[..at] + [c] + s[at + 1..]
  }

  predicate Runs(s: string, script: seq<Edit>)
    decreases |script|
  {
    script == [] || (Fits(script[0], s) && Runs(Apply(script[0], s), script[1..]))
  }

  function Run(s: string, script: seq<Edit>): string
    requires Runs(s, script)
    decreases |script|
  {
    if script == [] then s else Run(Apply(script[0], s), script[1..])
  }

  lemma InitOfConcat(s: string, w: string)
    requires w != ""
    ensures Init(s + w) == s + Init(w) && Last(s + w) == Last(w)
  {
  }

  lemma {:induction false} CommonSuffix(s: string, t: string, w: string)
    ensures Distance(s + w, t + w) <= Distance(s, t)
    decreases |w|
  {
    if w == "" {
      assert s + w == s && t + w == t;
    } else {
      CommonSuffix(s, t, Init(w));
      hide Distance;
      InitOfConcat(s, w);
      InitOfConcat(t, w);
      Steps(s + w, t + w);
    }
  }

  lemma OneEditIsOne(s: string, e: Edit)
    requires Fits(e, s)
    ensures Distance(s, Apply(e, s)) <= 1
  {
    hide Distance;
    var p := s[..e.at];
    DistanceToSelf(p);
    match e {
      case Insert(at, c) =>
        assert s == p + s[at..] && Init(p + [c]) == p;
        Steps(p, p + [c]);
        CommonSuffix(p, p + [c], s[at..]);
      case Delete(at) =>
        assert s == p + [s[at]] + s[at + 1..] && Init(p + [s[at]]) == p;
        Steps(p + [s[at]], p);
        CommonSuffix(p + [s[at]], p, s[at + 1..]);
      case Replace(at, c) =>
        assert s == p + [s[at]] + s[at + 1..] && Init(p + [s[at]]) == p && Init(p + [c]) == p;
        Steps(p + [s[at]], p + [c]);
        CommonSuffix(p + [s[at]], p + [c], s[at + 1..]);
    }
  }

  /** No sequence of insertions, deletions and replacements is shorter than the distance ... */
  lemma {:induction false} NoShorterScript(s: string, script: seq<Edit>)
    requires Runs(s, script)
    ensures Distance(s, Run(s, script)) <= |script|
    decreases |script|
  {
    if script == [] {
      DistanceToSelf(s);
    } else {
      var mid := Apply(script[0], s);
      OneEditIsOne(s, script[0]);
      NoShorterScript(mid, script[1..]);
      Triangle(s, mid, Run(s, script));
    }
  }

  /** ... and one of exactly that length exists. */
  lemma {:induction false} ShortestScript(s: string, t: string) returns (script: seq<Edit>)
    ensures |script| == Distance(s, t)
    ensures Runs(s, script) && Run(s, script) == t
    decreases |s| + |t|
  {
    hide Runs, Run, Apply;
    if s == "" && t == "" {
      script := EmptyScript();
    } else if t != "" && Distance(s, t) == Distance(s, Init(t)) + 1 {
      var rest := ShortestScript(s, Init(t));
      script := InsertLast(s, t, rest);
    } else if s != "" && Distance(s, t) == Distance(Init(s), t) + 1 {
      var rest := ShortestScript(Init(s), t);
      script := DeleteLast(s, t, rest);
    } else {
      var rest := ShortestScript(Init(s), Init(t));
      script := ReplaceLast(s, t, rest);
    }
  }

  lemma EmptyScript() returns (script: seq<Edit>)
    ensures script == [] && Runs("", script) && Run("", script) == ""
  {
    script := [];
  }

  lemma InsertLast(s: string, t: string, rest: seq<Edit>) returns (script: seq<Edit>)
    requires t != "" && Runs(s, rest) && Run(s, rest) == Init(t)
    ensures |script| == |rest| + 1 && Runs(s, script) && Run(s, script) == t
  {
    hide Runs, Run;
    var e := Insert(|t| - 1, Last(t));
    assert Apply(e, Init(t)) == t;
    script := RunThen(s, rest, e);
  }

  lemma DeleteLast(s: string, t: string, rest: seq<Edit>) returns (script: seq<Edit>)
    requires s != "" && Runs(Init(s), rest) && Run(Init(s), rest) == t
    ensures |script| == |rest| + 1 && Runs(s, script) && Run(s, script) == t
  {
    hide Runs, Run;
    assert s == Init(s) + [Last(s)];
    RunBeforeSuffix(Init(s), rest, [Last(s)]);
    assert Apply(Delete(|t|), t + [Last(s)]) == t;
    script := RunThen(s, rest, Delete(|t|));
  }

  lemma ReplaceLast(s: string, t: string, rest: seq<Edit>) returns (script: seq<Edit>)
    requires s != "" && t != "" && Runs(Init(s), rest) && Run(Init(s), rest) == Init(t)
    ensures |script| == |rest| + Substitution(Last(s), Last(t)) && Runs(s, script) && Run(s, script) == t
  {
    hide Runs, Run;
    assert s == Init(s) + [Last(s)] && t == Init(t) + [Last(t)];
    RunBeforeSuffix(Init(s), rest, [Last(s)]);
    if Last(s) == Last(t) {
      script := rest;
    } else {
      var e := Replace(|t| - 1, Last(t));
      assert Apply(e, Init(t) + [Last(s)]) == t;
      script := RunThen(s, rest, e);
    }
  }

  lemma {:induction false} RunThen(s: string, script: seq<Edit>, e: Edit) returns (longer: seq<Edit>)
    requires Runs(s, script) && Fits(e, Run(s, script))
    ensures longer == script + [e] && Runs(s, longer) && Run(s, longer) == Apply(e, Run(s, script))
    decreases |script|
  {
    longer := script + [e];
    if script != [] {
      var rest := RunThen(Apply(script[0], s), script[1..], e);
      assert longer[1..] == rest;
    }
  }

  lemma {:induction false} RunBeforeSuffix(s: string, script: seq<Edit>, w: string)
    requires Runs(s, script)
    ensures Runs(s + w, script) && Run(s + w, script) == Run(s, script) + w
    decreases |script|
  {
    if script != [] {
      assert Apply(script[0], s + w) == Apply(script[0], s) + w;
      RunBeforeSuffix(Apply(script[0], s), script[1..], w);
    }
  }

  // ---- The one-row loop ----

  method LevenshteinDistance(s1: string, s2: string) returns (d: nat)
    ensures d == Distance(s1, s2)
  {
    var m, n := |s1|, |s2|;
    if m == 0 || n == 0 {
      return Max(m, n);
    }
    var costs := new nat[n + 1];
    for k := 0 to n + 1
      invariant forall q :: 0 <= q < k ==> costs[q] == q
    {
      costs[k] := k;
    }
    for i := 0 to m
      invariant forall q :: 0 <= q <= n ==> costs[q] == Distance(s1[..i], s2[..q])
    {
      NextRow(s1, s2, i, costs);
    }
    assert s1[..m] == s1 && s2[..n] == s2;
    return costs[n];
  }

  /** The body of the outer loop turns the costs of one prefix of `s1` into those of the next. */
  method NextRow(s1: string, s2: string, i: nat, costs: array<nat>)
    requires i < |s1| && s2 != "" && costs.Length == |s2| + 1
    requires forall q :: 0 <= q <= |s2| ==> costs[q] == Distance(s1[..i], s2[..q])
    modifies costs
    ensures forall q :: 0 <= q <= |s2| ==> costs[q] == Distance(s1[..i + 1], s2[..q])
  {
    hide Distance;
    FirstCost(s1[..i], s2[..0]);
    FirstCost(s1[..i + 1], s2[..0]);
    costs[0] := i + 1;
    var corner := i;
    for j := 0 to |s2|
      invariant corner == Distance(s1[..i], s2[..j])
      invariant forall q :: 0 <= q <= j ==> costs[q] == Distance(s1[..i + 1], s2[..q])
      invariant forall q :: j < q <= |s2| ==> costs[q] == Distance(s1[..i], s2[..q])
    {
      var upper := costs[j + 1];
      assert Init(s1[..i + 1]) == s1[..i] && Init(s2[..j + 1]) == s2[..j];
      NextCost(s1[..i + 1], s2[..j + 1]);
      if s1[i] == s2[j] {
        costs[j + 1] := corner;
      } else {
        costs[j + 1] := Min(costs[j], Min(upper, corner)) + 1;
      }
      corner := upper;
    }
  }

  lemma FirstCost(s: string, t: string)
    requires t == ""
    ensures Distance(s, t) == |s|
  {
  }

  lemma NextCost(s: string, t: string)
    requires s != "" && t != ""
    ensures Distance(s, t)
         == if Last(s) == Last(t) then Distance(Init(s), Init(t))
            else Min(Distance(s, Init(t)), Min(Distance(Init(s), t), Distance(Init(s), Init(t)))) + 1
  {
    if Last(s) == Last(t) {
      EqualLastCharacters(s, t);
    }
  }

  // ---- The suggestion ----

  ghost predicate FirstClosest(names: seq<string>, wrong: string, k: int)
  {
    0 <= k < |names|
    && (forall q :: 0 <= q < |names| ==> Distance(names[k], wrong) <= Distance(names[q], wrong))
    && (forall q :: 0 <= q < k ==> Distance(names[k], wrong) < Distance(names[q], wrong))
  }

  ghost predicate Nearest(names: seq<string>, wrong: string, name: string)
  {
    if names == [] then name == "" else exists k :: FirstClosest(names, wrong, k) && name == names[k]
  }

  /** Suggests the first of the closest names. */
  method NearestName(names: seq<string>, wrong: string) returns (name: string)
    ensures Nearest(names, wrong, name)
  {
    name := "";
    var minDistance: int := -1;   // stands for the largest size_t
    ghost var best := 0;
    for k := 0 to |names|
      invariant k == 0 <==> minDistance == -1
      invariant k == 0 ==> name == ""
      invariant k > 0 ==> best < k && name == names[best] && minDistance == Distance(name, wrong)
      invariant k > 0 ==> forall q :: 0 <= q < k ==> minDistance <= Distance(names[q], wrong)
      invariant k > 0 ==> forall q :: 0 <= q < best ==> minDistance < Distance(names[q], wrong)
    {
      var distance := LevenshteinDistance(names[k], wrong);
      if minDistance == -1 || distance < minDistance {
        name := names[k];
        minDistance := distance;
        best := k;
      }
    }
  }

  /** A section of a configuration file and the names that it knows, in map order. */
  datatype Section = Section(title: string, names: seq<string>)

  predicate Knows(section: Section, name: string) { name in section.names }

  function Remark(wrong: string, title: string): (r: string)
    ensures r != ""
  {
    wrong + " but in section [" + title + "]"
  }

  /** `k` is the last of the first `n` sections that knows the name. */
  ghost predicate LastKnowing(sections: seq<Section>, n: nat, wrong: string, k: int)
    requires n <= |sections|
  {
    0 <= k < n && Knows(sections[k], wrong) && forall q :: k < q < n ==> !Knows(sections[q], wrong)
  }

  /** Among the first `n` sections: nothing when none knows the name, a remark about the last that does. */
  ghost predicate Elsewhere(sections: seq<Section>, n: nat, wrong: string, other: string)
    requires n <= |sections|
  {
    && (other == "" <==> forall k :: 0 <= k < n ==> !Knows(sections[k], wrong))
    && (forall k :: LastKnowing(sections, n, wrong, k) ==> other == Remark(wrong, sections[k].title))
  }

  /** The search for a section that knows the name; it goes on to the last one. */
  method OtherSection(sections: seq<Section>, wrong: string) returns (otherSectionMatch: string)
    ensures Elsewhere(sections, |sections|, wrong, otherSectionMatch)
  {
    hide Elsewhere, Remark;
    otherSectionMatch := "";
    NoSections(sections, wrong);
    for i := 0 to |sections|
      invariant Elsewhere(sections, i, wrong, otherSectionMatch)
    {
      var section := sections[i];
      ghost var before := otherSectionMatch;
      for j := 0 to |section.names|
        invariant otherSectionMatch
               == if wrong in section.names[..j] then Remark(wrong, section.title) else before
      {
        if wrong == section.names[j] {
          otherSectionMatch := Remark(wrong, section.title);
        }
      }
      assert section.names[..|section.names|] == section.names;
      assert Knows(section, wrong) <==> wrong in section.names;
      ElsewhereMore(sections, i, wrong, before);
    }
  }

  lemma NoSections(sections: seq<Section>, wrong: string)
    ensures Elsewhere(sections, 0, wrong, "")
  {
  }

  lemma ElsewhereMore(sections: seq<Section>, n: nat, wrong: string, other: string)
    requires n < |sections| && Elsewhere(sections, n, wrong, other)
    ensures Elsewhere(sections, n + 1, wrong,
                      if Knows(sections[n], wrong) then Remark(wrong, sections[n].title) else other)
  {
    hide Knows, Remark;
    var other' := if Knows(sections[n], wrong) then Remark(wrong, sections[n].title) else other;
    forall k | LastKnowing(sections, n + 1, wrong, k) ensures other' == Remark(wrong, sections[k].title) {
      if k < n {
        assert !Knows(sections[n], wrong) && LastKnowing(sections, n, wrong, k);
      }
    }
    if other' == "" {
      forall k | 0 <= k < n + 1 ensures !Knows(sections[k], wrong) {
      }
    } else if !Knows(sections[n], wrong) {
      var k :| 0 <= k < n && Knows(sections[k], wrong);
    }
  }

  /** What is suggested for a name unknown to section `c`. */
  ghost predicate Suggested(sections: seq<Section>, c: nat, wrong: string, match': string)
    requires c < |sections|
  {
    exists name, other :: Nearest(sections[c].names, wrong, name) && Elsewhere(sections, |sections|, wrong, other)
      && match' == name + if other == "" then "" else ", or " + other
  }

  /** The suggestion for an unknown name: the nearest name of the current section, and where else the name itself
      is known. It fails when the current section is not there. */
  method NearestMatch(sections: seq<Section>, curSection: string, wrong: string) returns (r: Result<string>)
    ensures r.Error? <==> forall c :: 0 <= c < |sections| ==> sections[c].title != curSection
    ensures r.Ok? ==> exists c: nat ::
      c < |sections| && sections[c].title == curSection && Suggested(sections, c, wrong, r.value)
  {
    hide Nearest, Elsewhere;
    var otherSectionMatch := OtherSection(sections, wrong);
    var c := 0;
    while c < |sections| && sections[c].title != curSection
      invariant c <= |sections| && forall q :: 0 <= q < c ==> sections[q].title != curSection
    {
      c := c + 1;
    }
    if c == |sections| {
      return Error;
    }
    var name := NearestName(sections[c].names, wrong);
    var match' := name;
    if otherSectionMatch != "" {
      match' := match' + (", or " + otherSectionMatch);
    }
    assert name + "" == name;
    assert Suggested(sections, c, wrong, match');
    return Ok(match');
  }
}
