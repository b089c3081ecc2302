/**
 ParishSoft email fields (src/parishkit/parishsoft.py, `split_email_addresses` and the fields
 rewritten from it): several addresses in one semicolon-separated string.
 */
module EmailFields {
  import opened Lists

  /** ASCII white space, standing for what `str.strip` removes. */
  predicate IsSpace(c: char) {
    c == ' ' || c == '\t' || c == '\n' || c == '\r'
  }

  function StripLeft(s: string): string {
    if s != [] && IsSpace(s[0]) then StripLeft(s[1..]) else s
  }

  function StripRight(s: string): string {
    if s != [] && IsSpace(s[|s| - 1]) then StripRight(s[..|s| - 1]) else s
  }

  function Strip(s: string): string {
    StripRight(StripLeft(s))
  }

  /** `s.split(";")`: one part more than there are semicolons. */
  function Split(s: string): (parts: seq<string>)
    ensures |parts| >= 1
  {
    if s == [] then [""]
    else
      var rest := Split(s[1..]);
      if s[0] == ';' then [""] + rest else [[s[0]] + rest[0]] + rest[1..]
  }

  /** The parts in order, stripped and lower-cased, without blanks and repeats. */
  function Clean(parts: seq<string>): seq<string> {
    if parts == [] then [] else
    var before := Clean(parts[..|parts| - 1]);
    var email := LowerAll(Strip(parts[|parts| - 1]));
    if email == "" || email in before then before else before + [email]
  }

  function SplitFields(fields: seq<string>): seq<string> {
    if fields == [] then [] else Split(fields[0]) + SplitFields(fields[1..])
  }

  /** `split_email_addresses` of a sequence of fields. */
  function Addresses(fields: seq<string>): seq<string> {
    Clean(SplitFields(fields))
  }

  /** The same in the source's form: a list grown past a set of addresses seen. */
  method SplitEmailAddresses(fields: seq<string>) returns (addresses: seq<string>)
    ensures addresses == Addresses(fields)
  {
    var parts := SplitFields(fields);
    var seen: set<string> := {};
    addresses := [];
    for i := 0 to |parts|
      invariant addresses == Clean(parts[..i])
      invariant forall x :: x in seen <==> x in addresses
    {
      assert parts[..i + 1][..i] == parts[..i];
      var email := LowerAll(Strip(parts[i]));
      if email != "" && email !in seen {
        seen := seen + {email};
        addresses := addresses + [email];
      }
    }
    assert parts[..|parts|] == parts;
  }

  /** `"; ".join(addresses)` */
  function Join(addresses: seq<string>): string {
    if addresses == [] then ""
    else if |addresses| == 1 then addresses[0]
    else addresses[0] + "; " + Join(addresses[1..])
  }

  // ----- normal addresses -----

  /** Not empty, in lower case, without semicolons, and without outer white space. */
  predicate Normal(s: string) {
    s != "" && LowerAll(s) == s && ';' !in s && !IsSpace(s[0]) && !IsSpace(s[|s| - 1])
  }

  ghost predicate NormalList(a: seq<string>) {
    (forall i :: 0 <= i < |a| ==> Normal(a[i])) && (forall i, j :: 0 <= i < j < |a| ==> a[i] != a[j])
  }

  lemma {:induction false} StripLeftIs(s: string)
    ensures StripLeft(s) == [] || !IsSpace(StripLeft(s)[0])
    ensures forall c :: c in StripLeft(s) ==> c in s
  {
    if s != [] && IsSpace(s[0]) {
      StripLeftIs(s[1..]);
    }
  }

  lemma {:induction false} StripRightIs(s: string)
    ensures StripRight(s) <= s
    ensures StripRight(s) == [] || !IsSpace(StripRight(s)[|StripRight(s)| - 1])
  {
    if s != [] && IsSpace(s[|s| - 1]) {
      StripRightIs(s[..|s| - 1]);
    }
  }

  lemma LoweredIsNormal(s: string)
    requires ';' !in s && LowerAll(Strip(s)) != ""
    ensures Normal(LowerAll(Strip(s)))
  {
    StripLeftIs(s);
    StripRightIs(StripLeft(s));
    var t := Strip(s);
    var e := LowerAll(t);
    assert forall i :: 0 <= i < |t| ==> t[i] in StripLeft(s);
    assert t[0] == StripLeft(s)[0];
  }

  lemma {:induction false} PartsHaveNoSemicolon(s: string)
    ensures forall i :: 0 <= i < |Split(s)| ==> ';' !in Split(s)[i]
  {
    if s != [] {
      PartsHaveNoSemicolon(s[1..]);
    }
  }

  lemma {:induction false} FieldPartsHaveNoSemicolon(fields: seq<string>)
    ensures forall i :: 0 <= i < |SplitFields(fields)| ==> ';' !in SplitFields(fields)[i]
  {
    if fields != [] {
      PartsHaveNoSemicolon(fields[0]);
      FieldPartsHaveNoSemicolon(fields[1..]);
    }
  }

  lemma {:induction false} CleanIsNormal(parts: seq<string>)
    requires forall i :: 0 <= i < |parts| ==> ';' !in parts[i]
    ensures NormalList(Clean(parts))
  {
    if parts != [] {
      var n := |parts| - 1;
      CleanIsNormal(parts[..n]);
      if LowerAll(Strip(parts[n])) != "" {
        LoweredIsNormal(parts[n]);
      }
    }
  }

  // ----- the round trip -----

  lemma StripNormal(s: string, lead: string)
    requires Normal(s) && (lead == "" || lead == " ")
    ensures Strip(lead + s) == s
  {
    assert StripLeft(s) == s && StripRight(s) == s;
    if lead == "" {
      assert lead + s == s;
    } else {
      assert (lead + s)[1..] == s;
    }
  }

  lemma {:induction false} SplitAt(head: string, tail: string)
    requires ';' !in head
    ensures Split(head + ";" + tail) == [head] + Split(tail)
  {
    var all := head + ";" + tail;
    if head == [] {
      assert all[1..] == tail;
    } else {
      assert all[1..] == head[1..] + ";" + tail;
      SplitAt(head[1..], tail);
      assert [head[0]] + head[1..] == head;
    }
  }

  lemma {:induction false} SplitWhole(s: string)
    requires ';' !in s
    ensures Split(s) == [s]
  {
    if s != [] {
      SplitWhole(s[1..]);
      assert [s[0]] + s[1..] == s;
    }
  }

  /** The parts of a joined list: every address but the first has a space before it. */
  function Spaced(a: seq<string>, lead: string): seq<string> {
    seq(|a|, i requires 0 <= i < |a| => if i == 0 then lead + a[0] else " " + a[i])
  }

  lemma {:induction false} SplitOfJoin(a: seq<string>, lead: string)
    requires a != [] && (lead == "" || lead == " ") && forall i :: 0 <= i < |a| ==> ';' !in a[i]
    ensures Split(lead + Join(a)) == Spaced(a, lead)
  {
    if |a| == 1 {
      SplitWhole(lead + a[0]);
    } else {
      assert lead + Join(a) == (lead + a[0]) + ";" + (" " + Join(a[1..]));
      SplitAt(lead + a[0], " " + Join(a[1..]));
      SplitOfJoin(a[1..], " ");
      assert Spaced(a, lead) == [lead + a[0]] + Spaced(a[1..], " ");
    }
  }

  lemma CleanNext(parts: seq<string>, n: nat, email: string)
    requires n < |parts| && Strip(parts[n]) == email && Normal(email) && email !in Clean(parts[..n])
    ensures Clean(parts[..n + 1]) == Clean(parts[..n]) + [email]
  {
    assert parts[..n + 1][..n] == parts[..n];
  }

  /** Parts that strip to distinct normal addresses clean to those addresses. */
  lemma {:induction false} CleanOfStripped(parts: seq<string>, a: seq<string>, n: nat)
    requires |parts| == |a| && n <= |a| && NormalList(a) && forall i :: 0 <= i < |a| ==> Strip(parts[i]) == a[i]
    ensures Clean(parts[..n]) == a[..n]
  {
    if n == 0 {
      assert parts[..0] == [];
    } else {
      CleanOfStripped(parts, a, n - 1);
      assert a[n - 1] !in a[..n - 1];
      CleanNext(parts, n - 1, a[n - 1]);
      assert a[..n] == a[..n - 1] + [a[n - 1]];
    }
  }

  lemma BlankIsNothing()
    ensures Addresses([""]) == []
  {
    SplitOneField("");
    assert Clean([""][..0]) == [];
  }

  lemma SplitOneField(field: string)
    ensures SplitFields([field]) == Split(field)
  {
    assert SplitFields([field]) == Split(field) + SplitFields([]);
  }

  lemma SpacedStrips(a: seq<string>)
    requires NormalList(a)
    ensures forall i :: 0 <= i < |a| ==> Strip(Spaced(a, "")[i]) == a[i]
  {
    forall i | 0 <= i < |a| ensures Strip(Spaced(a, "")[i]) == a[i] {
      StripNormal(a[i], if i == 0 then "" else " ");
    }
  }

  /** A field rewritten from a list of normal addresses reads back as that list. */
  lemma JoinReadsBack(a: seq<string>)
    requires NormalList(a)
    ensures Addresses([Join(a)]) == a
  {
    if a == [] {
      BlankIsNothing();
    } else {
      SplitOneField(Join(a));
      assert "" + Join(a) == Join(a);
      SplitOfJoin(a, "");
      SpacedStrips(a);
      CleanOfStripped(Spaced(a, ""), a, |a|);
      assert Spaced(a, "")[..|a|] == Spaced(a, "") && a[..|a|] == a;
    }
  }

  /**
   Normal form. Whatever the fields hold, the addresses split out of them are normal and distinct, and
   splitting the field they are joined into gives the same list again.
   */
  lemma SplitIsStable(fields: seq<string>)
    ensures NormalList(Addresses(fields)) && Addresses([Join(Addresses(fields))]) == Addresses(fields)
  {
    FieldPartsHaveNoSemicolon(fields);
    CleanIsNormal(SplitFields(fields));
    JoinReadsBack(Addresses(fields));
  }

  // ----- what an address is -----

  /** A stretch of the field between semicolons, or the field's ends. */
  ghost predicate PartOf(field: string, part: string) {
    ';' !in part && exists before, after :: Between(field, before, part, after)
  }

  ghost predicate Between(field: string, before: string, part: string, after: string) {
    && field == before + part + after
    && (before == "" || before[|before| - 1] == ';') && (after == "" || after[0] == ';')
  }

  predicate Blank(s: string) {
    forall i :: 0 <= i < |s| ==> s[i] == ' ' || s[i] == '\t' || s[i] == '\n' || s[i] == '\r'
  }

  /** The part without the white space around it, of which something is left. */
  ghost predicate Trimmed(part: string, core: string) {
    && core != "" && !Blank([core[0]]) && !Blank([core[|core| - 1]])
    && exists lead, trail :: Blank(lead) && Blank(trail) && part == lead + core + trail
  }

  lemma {:induction false} PartPlace(s: string, i: nat) returns (before: string, after: string)
    requires i < |Split(s)|
    ensures Between(s, before, Split(s)[i], after)
    ensures if i == 0 then before == "" else before != ""
  {
    if s == "" {
      before, after := "", "";
    } else if s[0] == ';' {
      if i == 0 {
        before, after := "", s;
      } else {
        before, after := PartPlace(s[1..], i - 1);
        before := ";" + before;
        assert s == [s[0]] + s[1..];
      }
    } else {
      before, after := PartPlace(s[1..], i);
      assert s == [s[0]] + s[1..];
      if i > 0 {
        before := [s[0]] + before;
      }
    }
  }

  lemma {:induction false} SplitJoin(head: string, tail: string)
    ensures Split(head + ";" + tail) == Split(head) + Split(tail)
  {
    var all := head + ";" + tail;
    if head == "" {
      assert all[1..] == tail;
    } else {
      assert all[0] == head[0] && all[1..] == head[1..] + ";" + tail;
      SplitJoin(head[1..], tail);
    }
  }

  lemma LeadingPart(part: string, after: string)
    requires ';' !in part && (after == "" || after[0] == ';')
    ensures part in Split(part + after)
  {
    if after == "" {
      SplitWhole(part);
      assert part + after == part;
    } else {
      SplitAt(part, after[1..]);
      assert part + after == part + ";" + after[1..];
    }
  }

  lemma PartsAre(field: string, part: string)
    ensures part in Split(field) <==> PartOf(field, part)
  {
    if part in Split(field) {
      var i :| 0 <= i < |Split(field)| && Split(field)[i] == part;
      var before, after := PartPlace(field, i);
      PartsHaveNoSemicolon(field);
    }
    if PartOf(field, part) {
      var before, after :| Between(field, before, part, after);
      PartIsSplit(field, before, part, after);
    }
  }

  lemma PartIsSplit(field: string, before: string, part: string, after: string)
    requires ';' !in part && Between(field, before, part, after)
    ensures part in Split(field)
  {
    hide Split;
    LeadingPart(part, after);
    if before != "" {
      var head := before[..|before| - 1];
      assert before == head + ";";
      assert field == head + ";" + (part + after);
      SplitJoin(head, part + after);
    } else {
      assert field == part + after;
    }
  }

  lemma {:induction false} StripLeftBlank(s: string) returns (lead: string)
    ensures Blank(lead) && s == lead + StripLeft(s)
  {
    lead := "";
    if s != "" && IsSpace(s[0]) {
      lead := StripLeftBlank(s[1..]);
      lead := [s[0]] + lead;
      assert s == [s[0]] + s[1..];
    }
  }

  lemma {:induction false} StripRightBlank(s: string) returns (trail: string)
    ensures Blank(trail) && s == StripRight(s) + trail
  {
    trail := "";
    if s != "" && IsSpace(s[|s| - 1]) {
      trail := StripRightBlank(s[..|s| - 1]);
      trail := trail + [s[|s| - 1]];
      assert s == s[..|s| - 1] + [s[|s| - 1]];
    }
  }

  lemma {:induction false} StripLeftOf(lead: string, s: string)
    requires Blank(lead) && s != "" && !IsSpace(s[0])
    ensures StripLeft(lead + s) == s
  {
    if lead == "" {
      assert lead + s == s;
    } else {
      assert IsSpace(lead[0]) && (lead + s)[1..] == lead[1..] + s;
      StripLeftOf(lead[1..], s);
    }
  }

  lemma {:induction false} StripRightOf(s: string, trail: string)
    requires Blank(trail) && s != "" && !IsSpace(s[|s| - 1])
    ensures StripRight(s + trail) == s
  {
    if trail == "" {
      assert s + trail == s;
    } else {
      var n := |trail| - 1;
      assert IsSpace(trail[n]) && (s + trail)[..|s| + n] == s + trail[..n];
      StripRightOf(s, trail[..n]);
    }
  }

  lemma BlankOne(c: char)
    ensures Blank([c]) <==> IsSpace(c)
  {
    assert [c][0] == c;
  }

  lemma StripTrims(part: string)
    requires Strip(part) != ""
    ensures Trimmed(part, Strip(part))
  {
    var core := Strip(part);
    StripLeftIs(part);
    StripRightIs(StripLeft(part));
    var lead := StripLeftBlank(part);
    var trail := StripRightBlank(StripLeft(part));
    hide StripLeft, StripRight, Blank;
    BlankOne(core[0]);
    BlankOne(core[|core| - 1]);
    assert core[0] == StripLeft(part)[0];
    assert part == lead + core + trail;
  }

  lemma TrimmedIsStripped(part: string, core: string)
    requires Trimmed(part, core)
    ensures Strip(part) == core
  {
    hide StripLeft, StripRight, Blank;
    BlankOne(core[0]);
    BlankOne(core[|core| - 1]);
    var lead, trail :| Blank(lead) && Blank(trail) && part == lead + core + trail;
    assert part == lead + (core + trail);
    StripLeftOf(lead, core + trail);
    StripRightOf(core, trail);
  }

  lemma StripIff(part: string, core: string)
    requires core != ""
    ensures Strip(part) == core <==> Trimmed(part, core)
  {
    hide Strip, Trimmed;
    if Strip(part) == core {
      StripTrims(part);
    }
    if Trimmed(part, core) {
      TrimmedIsStripped(part, core);
    }
  }

  lemma {:induction false} CleanHas(parts: seq<string>, email: string)
    ensures email in Clean(parts) <==> email != "" && exists i :: 0 <= i < |parts| && LowerAll(Strip(parts[i])) == email
  {
    if parts != [] {
      var n := |parts| - 1;
      CleanHas(parts[..n], email);
      assert parts == parts[..n] + [parts[n]];
    }
  }

  lemma {:induction false} FieldsHave(fields: seq<string>, part: string)
    ensures part in SplitFields(fields) <==> exists i :: 0 <= i < |fields| && part in Split(fields[i])
  {
    if fields != [] {
      FieldsHave(fields[1..], part);
      assert fields == [fields[0]] + fields[1..];
    }
  }

  /** The address is the trimmed, lower-cased form of a part of the i-th field. */
  ghost predicate WrittenIn(fields: seq<string>, i: int, part: string, core: string, email: string) {
    0 <= i < |fields| && PartOf(fields[i], part) && Trimmed(part, core) && LowerAll(core) == email
  }

  /** An address is found exactly when some field has it between semicolons, up to outer blanks and case. */
  lemma AddressIff(fields: seq<string>, email: string)
    ensures email in Addresses(fields) <==> exists i, part, core :: WrittenIn(fields, i, part, core, email)
  {
    hide Split, Strip, LowerAll, PartOf, Trimmed;
    var parts := SplitFields(fields);
    CleanHas(parts, email);
    if email in Addresses(fields) {
      var k :| 0 <= k < |parts| && LowerAll(Strip(parts[k])) == email;
      FieldsHave(fields, parts[k]);
      var i :| 0 <= i < |fields| && parts[k] in Split(fields[i]);
      PartsAre(fields[i], parts[k]);
      LoweredSame(Strip(parts[k]));
      StripIff(parts[k], Strip(parts[k]));
      assert WrittenIn(fields, i, parts[k], Strip(parts[k]), email);
    }
    if i, part, core :| WrittenIn(fields, i, part, core, email) {
      PartsAre(fields[i], part);
      FieldsHave(fields, part);
      CoreIsSomething(part, core);
      StripIff(part, core);
      LoweredSame(core);
      var k :| 0 <= k < |parts| && parts[k] == part;
    }
  }

  lemma CoreIsSomething(part: string, core: string)
    requires Trimmed(part, core)
    ensures core != ""
  {
  }

  lemma LoweredSame(s: string)
    ensures LowerAll(s) == "" <==> s == ""
  {
    LowerIs(s);
  }

  lemma {:induction false} CleanGrows(parts: seq<string>, more: seq<string>)
    ensures Clean(parts) <= Clean(parts + more)
    decreases |more|
  {
    if more == [] {
      assert parts + more == parts;
    } else {
      var n := |more| - 1;
      CleanGrows(parts, more[..n]);
      assert (parts + more)[..|parts| + n] == parts + more[..n];
    }
  }

  lemma {:induction false} FieldsAppend(fields: seq<string>, more: seq<string>)
    ensures SplitFields(fields + more) == SplitFields(fields) + SplitFields(more)
  {
    if fields == [] {
      assert fields + more == more;
    } else {
      assert (fields + more)[1..] == fields[1..] + more;
      FieldsAppend(fields[1..], more);
    }
  }

  /** Further fields only add addresses after those found already. */
  lemma FurtherFieldsFollow(fields: seq<string>, more: seq<string>)
    ensures Addresses(fields) <= Addresses(fields + more)
  {
    FieldsAppend(fields, more);
    CleanGrows(SplitFields(fields), SplitFields(more));
  }
}
