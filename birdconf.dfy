/** bird.conf as a list of lines: finding the `protocol static` section,
    inserting a route declaration before its closing brace, and deleting the
    first line of the section that names a route. */
module BirdConf {
  import opened Text

  predicate IsStaticHeader(line: string) {
    Contains(line, "protocol static")
  }

  predicate Closes(line: string) {
    '}' in line
  }

  /** The section the search settles on: `e` is the first line holding '}'
      at or after the first `protocol static` line, and `s` the last
      `protocol static` line at or before `e`. */
  predicate IsStaticSection(conf: seq<string>, s: nat, e: nat) {
    && s <= e < |conf|
    && IsStaticHeader(conf[s]) && Closes(conf[e])
    && (forall j | s < j <= e :: !IsStaticHeader(conf[j]))
    && (forall j, k | 0 <= j <= k < e && IsStaticHeader(conf[j]) :: !Closes(conf[k]))
  }

  /** No line at or after a `protocol static` line holds '}' (in particular,
      there may be no `protocol static` line at all). */
  predicate NoStaticSection(conf: seq<string>) {
    forall j, k | 0 <= j <= k < |conf| && IsStaticHeader(conf[j]) :: !Closes(conf[k])
  }

  /** There is at most one section, and never one when NoStaticSection. */
  lemma SectionUnique(conf: seq<string>, s: nat, e: nat, s': nat, e': nat)
    requires IsStaticSection(conf, s, e) && IsStaticSection(conf, s', e')
    ensures s == s' && e == e'
    ensures !NoStaticSection(conf)
  {
    assert IsStaticHeader(conf[s]) && IsStaticHeader(conf[s']) && Closes(conf[e]) && Closes(conf[e']);
  }

  /** The search of update_bird_conf and remove_route_from_bird, with the
      source's -1 for "not found". */
  method FindStaticSection(conf: seq<string>) returns (start: int, end: int)
    ensures -1 <= start && -1 <= end
    ensures start == -1 || end == -1 <==> NoStaticSection(conf)
    ensures start != -1 && end != -1 ==> 0 <= start && 0 <= end && IsStaticSection(conf, start, end)
  {
    start, end := -1, -1;
    var i := 0;
    while i < |conf|
      invariant 0 <= i <= |conf|
      invariant end == -1
      invariant -1 <= start < i
      invariant start == -1 ==> forall j | 0 <= j < i :: !IsStaticHeader(conf[j])
      invariant start != -1 ==> IsStaticHeader(conf[start]) && forall j | start < j < i :: !IsStaticHeader(conf[j])
      invariant forall j, k | 0 <= j <= k < i && IsStaticHeader(conf[j]) :: !Closes(conf[k])
    {
      if IsStaticHeader(conf[i]) {
        start := i;
      }
      if start != -1 && Closes(conf[i]) {
        end := i;
        assert IsStaticSection(conf, start, end);
        return;
      }
      i := i + 1;
    }
  }

  // ---------------------------------------------------------------------------
  // Lines

  /** Python's list.insert(i, x). */
  function InsertAt<T>(s: seq<T>, i: nat, x: T): (r: seq<T>)
    requires i <= |s|
    ensures |r| == |s| + 1 && r[i] == x
    ensures forall k | 0 <= k < i :: r[k] == s[k]
    ensures forall k | i <= k < |s| :: r[k + 1] == s[k]
  {
    s[..i] + [x] + s[i..]
  }

  /** Python's del s[i]. */
  function RemoveAt<T>(s: seq<T>, i: nat): (r: seq<T>)
    requires i < |s|
    ensures |r| == |s| - 1
    ensures forall k | 0 <= k < i :: r[k] == s[k]
    ensures forall k | i < k < |s| :: r[k - 1] == s[k]
  {
    s[..i] + s[i + 1..]
  }

  lemma RemoveInserted<T>(s: seq<T>, i: nat, x: T)
    requires i <= |s|
    ensures RemoveAt(InsertAt(s, i, x), i) == s
  {
  }

  /** The declaration add_route writes. */
  function RouteLine(destination: string, nextHop: string): string {
    "    route " + destination + " via " + nextHop + ";\n"
  }

  /** How a line is taken to name the route to a destination. */
  datatype LineMatch =
    | Substring     // `route D` occurs in the line
    | Declaration   // the line's first two fields are `route` and D

  predicate DeclaresRoute(line: string, destination: string) {
    var f := Fields(line);
    |f| >= 2 && f[0] == "route" && f[1] == destination
  }

  predicate Names(how: LineMatch, line: string, destination: string) {
    match how
    case Substring => Contains(line, "route " + destination)
    case Declaration => DeclaresRoute(line, destination)
  }

  /** The first line in [i, e) that names the destination. */
  function FirstNaming(conf: seq<string>, i: nat, e: nat, how: LineMatch, destination: string): (m: Option<nat>)
    requires e <= |conf|
    ensures m.Some? ==> i <= m.value < e
    decreases e - i
  {
    if i >= e then None
    else if Names(how, conf[i], destination) then Some(i)
    else FirstNaming(conf, i + 1, e, how, destination)
  }

  lemma {:induction false} FirstNamingSpec(conf: seq<string>, i: nat, e: nat, how: LineMatch, destination: string)
    requires e <= |conf|
    ensures var m := FirstNaming(conf, i, e, how, destination);
      && (m.None? <==> forall k | i <= k < e :: !Names(how, conf[k], destination))
      && (m.Some? ==> Names(how, conf[m.value], destination)
                      && forall k | i <= k < m.value :: !Names(how, conf[k], destination))
    decreases e - i
  {
    if i < e && !Names(how, conf[i], destination) {
      FirstNamingSpec(conf, i + 1, e, how, destination);
    }
  }

  /** The loop of remove_route_from_bird: delete the first line of [s, e)
      naming the destination, and say whether there was one. */
  method RemoveFirstNaming(conf: seq<string>, s: nat, e: nat, how: LineMatch, destination: string)
    returns (edited: seq<string>, found: bool)
    requires s <= e <= |conf|
    ensures found <==> FirstNaming(conf, s, e, how, destination).Some?
    ensures found ==> edited == RemoveAt(conf, FirstNaming(conf, s, e, how, destination).value)
    ensures !found ==> edited == conf
  {
    edited, found := conf, false;
    var i := s;
    while i < e
      invariant s <= i <= e
      invariant FirstNaming(conf, s, e, how, destination) == FirstNaming(conf, i, e, how, destination)
    {
      if Names(how, edited[i], destination) {
        edited := RemoveAt(edited, i);
        found := true;
        return;
      }
      i := i + 1;
    }
  }

  // ---------------------------------------------------------------------------
  // Facts about the edits

  predicate Clean(line: string) {
    !Closes(line) && !IsStaticHeader(line)
  }

  /** A clean line inserted before the closing brace of a section that spans
      more than one line lands inside the section, which keeps its header and
      now closes one line later. */
  lemma InsertKeepsSection(conf: seq<string>, s: nat, e: nat, line: string)
    requires IsStaticSection(conf, s, e) && s < e && Clean(line)
    ensures IsStaticSection(InsertAt(conf, e, line), s, e + 1)
  {
    var c := InsertAt(conf, e, line);
    forall j, k | 0 <= j <= k < e + 1 && IsStaticHeader(c[j]) ensures !Closes(c[k]) {
      if k < e {
        assert c[j] == conf[j] && c[k] == conf[k];
      }
    }
    forall j | s < j <= e + 1 ensures !IsStaticHeader(c[j]) {
      if j <= e - 1 {
        assert c[j] == conf[j];
      } else if j == e + 1 {
        assert c[j] == conf[e];
      }
    }
  }

  /** The declaration written for D contains `route D`. */
  lemma RouteLineMentions(destination: string, nextHop: string)
    ensures Names(Substring, RouteLine(destination, nextHop), destination)
  {
    var line := RouteLine(destination, nextHop);
    var needle := "route " + destination;
    assert line[4..4 + |needle|] == needle;
    assert OccursAt(line, needle, 4);
  }

  /** The declaration written for D splits into `route`, D, `via`, NH;. */
  lemma RouteLineDeclares(destination: string, nextHop: string)
    requires |destination| > 0 && NoSpace(destination)
    ensures Names(Declaration, RouteLine(destination, nextHop), destination)
  {
    var tail := " via " + nextHop + ";\n";
    var body := "route" + (" " + (destination + tail));
    RouteLineShape(destination, nextHop);
    FourSpaces(body);
    FieldsCons(destination, tail);
    FieldsSkipSpace(destination + tail);
    FieldsCons("route", " " + (destination + tail));
  }

  lemma RouteLineShape(destination: string, nextHop: string)
    ensures RouteLine(destination, nextHop)
         == " " + (" " + (" " + (" " + ("route" + (" " + (destination + (" via " + nextHop + ";\n")))))))
  {
    var lead := "    route ";
    assert lead == " " + (" " + (" " + (" " + ("route" + " "))));
    Reassociate(lead, destination, " via ", nextHop, ";\n");
  }

  lemma Reassociate(p: string, d: string, v: string, n: string, e: string)
    ensures p + d + v + n + e == p + (d + (v + n + e))
  {
  }

  lemma FourSpaces(body: string)
    ensures Fields(" " + (" " + (" " + (" " + body)))) == Fields(body)
  {
    FieldsSkipSpace(body);
    FieldsSkipSpace(" " + body);
    FieldsSkipSpace(" " + (" " + body));
    FieldsSkipSpace(" " + (" " + (" " + body)));
  }

  lemma RouteLineNames(destination: string, nextHop: string, how: LineMatch)
    requires |destination| > 0 && NoSpace(destination)
    ensures Names(how, RouteLine(destination, nextHop), destination)
  {
    if how == Substring {
      RouteLineMentions(destination, nextHop);
    } else {
      RouteLineDeclares(destination, nextHop);
    }
  }

  /** Adding D to a section where no line declares D, then removing the
      first line that declares D, gives back the original lines. */
  lemma AddThenRemove(conf: seq<string>, s: nat, e: nat, destination: string, nextHop: string)
    requires IsStaticSection(conf, s, e) && s < e
    requires |destination| > 0 && NoSpace(destination)
    requires Clean(RouteLine(destination, nextHop))
    requires FirstNaming(conf, s, e, Declaration, destination).None?
    ensures var added := InsertAt(conf, e, RouteLine(destination, nextHop));
      && IsStaticSection(added, s, e + 1)
      && FirstNaming(added, s, e + 1, Declaration, destination) == Some(e)
      && RemoveAt(added, e) == conf
  {
    var line := RouteLine(destination, nextHop);
    var added := InsertAt(conf, e, line);
    InsertKeepsSection(conf, s, e, line);
    FirstNamingSpec(conf, s, e, Declaration, destination);
    RouteLineDeclares(destination, nextHop);
    FirstNamingSpec(added, s, e + 1, Declaration, destination);
    assert forall k | s <= k < e :: added[k] == conf[k];
    RemoveInserted(conf, e, line);
  }

  /** A string that lacks one of the characters of `sub` does not contain it. */
  lemma MissingChar(line: string, sub: string, j: nat)
    requires j < |sub| && sub[j] !in line
    ensures !Contains(line, sub)
  {
    forall i: nat | i <= |line| ensures !OccursAt(line, sub, i) {
      if i + |sub| <= |line| {
        assert line[i..i + |sub|][j] == line[i + j];
      }
    }
  }

  /** The declaration of D' contains `route D` for every prefix D of D'. */
  lemma RouteLineMentionsPrefix(destination: string, longer: string, nextHop: string)
    requires destination <= longer
    ensures Names(Substring, RouteLine(longer, nextHop), destination)
  {
    var line := RouteLine(longer, nextHop);
    var needle := "route " + destination;
    assert line[4..4 + |needle|] == needle;
    assert OccursAt(line, needle, 4);
  }

  /** Matching `route D` as a substring: with a /24 declared, adding the /2
      of the same address and removing it again deletes the /24 line and
      leaves the new one. */
  lemma SubstringRemovesAnotherRoute()
    ensures var conf := [StaticHeaderLine, RouteLine("10.0.0.0/24", "192.168.1.1"), "}\n"];
      var added := InsertAt(conf, 2, RouteLine("10.0.0.0/2", "192.168.1.2"));
      && IsStaticSection(conf, 0, 2)
      && FirstNaming(conf, 0, 2, Declaration, "10.0.0.0/2").None?
      && FirstNaming(added, 0, 3, Substring, "10.0.0.0/2") == Some(1)
      && RemoveAt(added, 1) != conf
  {
    var other := RouteLine("10.0.0.0/24", "192.168.1.1");
    var conf := [StaticHeaderLine, other, "}\n"];
    var added := InsertAt(conf, 2, RouteLine("10.0.0.0/2", "192.168.1.2"));
    ExampleSection(other);
    HeaderNamesNoRoute("10.0.0.0/2");
    ExampleIsWord();
    RouteLineDeclares("10.0.0.0/24", "192.168.1.1");
    RouteLineMentionsPrefix("10.0.0.0/2", "10.0.0.0/24", "192.168.1.1");
    assert added[0] == StaticHeaderLine && added[1] == other;
    assert RemoveAt(added, 1)[1] != conf[1];
  }

  const StaticHeaderLine := "protocol static {\n"

  lemma ExampleIsWord()
    ensures NoSpace("10.0.0.0/24")
  {
    var w := "10.0.0.0/24";
    forall k | 0 <= k < |w| ensures !IsSpace(w[k]) {
      assert w[k] == '.' || w[k] == '/' || IsDigit(w[k]);
    }
  }

  lemma ExampleSection(other: string)
    requires other == RouteLine("10.0.0.0/24", "192.168.1.1")
    ensures IsStaticSection([StaticHeaderLine, other, "}\n"], 0, 2)
  {
    assert StaticHeaderLine[..15] == "protocol static";
    assert OccursAt(StaticHeaderLine, "protocol static", 0);
    assert 'p' !in other;
    MissingChar(other, "protocol static", 0);
    MissingChar("}\n", "protocol static", 0);
    assert '}' !in StaticHeaderLine && '}' !in other;
    var conf := [StaticHeaderLine, other, "}\n"];
    assert !IsStaticHeader(conf[1]) && !IsStaticHeader(conf[2]);
    assert !Closes(conf[0]) && !Closes(conf[1]) && Closes(conf[2]);
  }

  /** The header line names no route: it lacks the `u` of `route`, and its
      first field is `protocol`. */
  lemma HeaderNamesNoRoute(destination: string)
    ensures !Names(Substring, StaticHeaderLine, destination)
    ensures !Names(Declaration, StaticHeaderLine, destination)
  {
    assert ("route " + destination)[2] == 'u';
    MissingChar(StaticHeaderLine, "route " + destination, 2);
    FirstField(StaticHeaderLine);
  }

  /** A section opened and closed on one line: the declaration goes in
      before the `protocol static` line, outside the braces. */
  lemma OneLineSection(conf: seq<string>, s: nat, line: string)
    requires IsStaticSection(conf, s, s) && Clean(line)
    ensures var added := InsertAt(conf, s, line);
      added[s] == line && IsStaticSection(added, s + 1, s + 1)
  {
    var added := InsertAt(conf, s, line);
    forall j, k | 0 <= j <= k < s + 1 && IsStaticHeader(added[j]) ensures !Closes(added[k]) {
      if k < s {
        assert added[j] == conf[j] && added[k] == conf[k];
      }
    }
  }

  // ---------------------------------------------------------------------------
  // The file

  /** What an edit of the file came to. */
  datatype ConfEdit =
    | NoSection          // no static section: nothing written, no reload
    | RouteNotFound      // no line of the section names the route: idem
    | Reloaded(ok: bool) // file replaced and `birdc configure` run; ok is its exit status

  /** /etc/bird/bird.conf, and how many times BIRD was told to reload it. */
  class ConfigFile {
    var lines: seq<string>
    var reloads: nat

    constructor (lines: seq<string>)
      ensures this.lines == lines && reloads == 0
    {
      this.lines := lines;
      reloads := 0;
    }

    /** update_bird_conf: insert the declaration before the section's closing
        line, replace the file and reload. `reloadOk` stands for the exit
        status of `birdc configure`. */
    method UpdateBirdConf(destination: string, nextHop: string, reloadOk: bool) returns (edit: ConfEdit)
      modifies this
      ensures edit == NoSection <==> NoStaticSection(old(lines))
      ensures edit == NoSection ==> lines == old(lines) && reloads == old(reloads)
      ensures edit != NoSection ==>
        && edit == Reloaded(reloadOk) && reloads == old(reloads) + 1
        && exists s: nat, e: nat :: IsStaticSection(old(lines), s, e)
             && lines == InsertAt(old(lines), e, RouteLine(destination, nextHop))
    {
      var conf := lines;
      var start, end := FindStaticSection(conf);
      if start == -1 || end == -1 {
        return NoSection;
      }
      assert IsStaticSection(old(lines), start as nat, end as nat);
      conf := InsertAt(conf, end, RouteLine(destination, nextHop));
      lines := conf;
      reloads := reloads + 1;
      edit := Reloaded(reloadOk);
    }

    /** remove_route_from_bird: delete the first line of the section that
        names the destination, as `how` matches lines; with no section, or no
        such line, nothing is written. */
    method RemoveRouteFromBird(destination: string, how: LineMatch, reloadOk: bool) returns (edit: ConfEdit)
      modifies this
      ensures edit == NoSection <==> NoStaticSection(old(lines))
      ensures !edit.Reloaded? ==> lines == old(lines) && reloads == old(reloads)
      ensures forall s: nat, e: nat | IsStaticSection(old(lines), s, e) ::
        match FirstNaming(old(lines), s, e, how, destination)
        case None => edit == RouteNotFound
        case Some(m) => edit == Reloaded(reloadOk) && lines == RemoveAt(old(lines), m)
                        && reloads == old(reloads) + 1
    {
      var conf := lines;
      var start, end := FindStaticSection(conf);
      if start == -1 || end == -1 {
        return NoSection;
      }
      var found;
      conf, found := RemoveFirstNaming(conf, start, end, how, destination);
      if !found {
        forall s: nat, e: nat | IsStaticSection(old(lines), s, e) ensures s == start && e == end {
          SectionUnique(old(lines), s, e, start, end);
        }
        return RouteNotFound;
      }
      forall s: nat, e: nat | IsStaticSection(old(lines), s, e) ensures s == start && e == end {
        SectionUnique(old(lines), s, e, start, end);
      }
      lines := conf;
      reloads := reloads + 1;
      edit := Reloaded(reloadOk);
    }
  }
}
