/**
 * The flag sanitizer that both the gateway and the engines run
 * (packages/engine-runtime/src/flags.ts), and why running it twice is running it once.
 */
module Flags {
  import opened JsString
  import opened Optional

  /** An element of the caller's list: a string, or something else and what String() makes of it. */
  datatype RawFlag = Text(s: string) | NotText(shown: string)

  datatype FlagSpec = FlagSpec(takesValue: bool, valuePattern: Option<string -> bool>)

  type Catalog = map<string, FlagSpec>

  /** What a list element is reported as, and the flag name it carries. */
  datatype Entry = Entry(raw: string, name: string)

  datatype SanitizedFlags = SanitizedFlags(flags: seq<string>, dropped: seq<string>)

  function NameOf(flag: string): string { flag[..IndexOfChar(flag, '=')] }

  function EntryOf(f: RawFlag): Entry {
    match f
    case Text(s) => Entry(Trim(s), NameOf(Trim(s)))
    case NotText(shown) => Entry(shown, NameOf(shown))
  }

  /** The flag is spelled the way its catalog entry asks: with a matching value, or with none. */
  predicate Catalogued(catalog: Catalog, flag: string) {
    && flag != "" && flag[0] == '-'
    && NameOf(flag) in catalog
    && var spec := catalog[NameOf(flag)];
       if |flag| == |NameOf(flag)| then !spec.takesValue
       else spec.takesValue && spec.valuePattern.Some? && spec.valuePattern.value(flag[|NameOf(flag)| + 1..])
  }

  predicate Eligible(catalog: Catalog, f: RawFlag, index: nat, maxFlags: nat) {
    f.Text? && index < maxFlags && Catalogued(catalog, Trim(f.s))
  }

  /** Names of the eligible entries among the first `n`. */
  function SeenIn(catalog: Catalog, flags: seq<RawFlag>, maxFlags: nat, n: nat): set<string>
    requires n <= |flags|
  {
    if n == 0 then {}
    else SeenIn(catalog, flags, maxFlags, n - 1)
         + if Eligible(catalog, flags[n - 1], n - 1, maxFlags) then {EntryOf(flags[n - 1]).name} else {}
  }

  predicate Taken(catalog: Catalog, flags: seq<RawFlag>, maxFlags: nat, i: nat)
    requires i < |flags|
  {
    Eligible(catalog, flags[i], i, maxFlags) && EntryOf(flags[i]).name !in SeenIn(catalog, flags, maxFlags, i)
  }

  /** The first eligible entry of each name, in list order. */
  function AcceptedIn(catalog: Catalog, flags: seq<RawFlag>, maxFlags: nat, n: nat): seq<string>
    requires n <= |flags|
  {
    if n == 0 then []
    else AcceptedIn(catalog, flags, maxFlags, n - 1)
         + if Taken(catalog, flags, maxFlags, n - 1) then [EntryOf(flags[n - 1]).raw] else []
  }

  /** Every entry with text whose name was accepted nowhere, in list order. */
  function DroppedIn(flags: seq<RawFlag>, names: set<string>, n: nat): seq<string>
    requires n <= |flags|
  {
    if n == 0 then []
    else DroppedIn(flags, names, n - 1)
         + (var e := EntryOf(flags[n - 1]); if e.raw != "" && e.name !in names then [e.raw] else [])
  }

  function Take(xs: seq<string>, n: nat): (r: seq<string>)
    ensures r <= xs && |r| <= n && (|r| < n ==> r == xs)
  {
    if |xs| <= n then xs else xs[..n]
  }

  function Sanitized(catalog: Catalog, flags: seq<RawFlag>, maxFlags: nat, sort: bool): SanitizedFlags {
    var accepted := AcceptedIn(catalog, flags, maxFlags, |flags|);
    SanitizedFlags(if sort then Sorted(accepted) else accepted,
                   Take(DroppedIn(flags, SeenIn(catalog, flags, maxFlags, |flags|), |flags|), maxFlags))
  }

  // ---- the source's loop ---------------------------------------------------------------------

  /** The rejects collected among the first `n`, before names accepted elsewhere are forgiven. */
  function RejectedIn(catalog: Catalog, flags: seq<RawFlag>, maxFlags: nat, n: nat): seq<Entry>
    requires n <= |flags|
  {
    if n == 0 then []
    else RejectedIn(catalog, flags, maxFlags, n - 1)
         + if EntryOf(flags[n - 1]).raw != "" && !Taken(catalog, flags, maxFlags, n - 1) then [EntryOf(flags[n - 1])] else []
  }

  function Unforgiven(rejected: seq<Entry>, seen: set<string>): seq<string> {
    if rejected == [] then []
    else Unforgiven(rejected[..|rejected| - 1], seen)
         + if rejected[|rejected| - 1].name !in seen then [rejected[|rejected| - 1].raw] else []
  }

  lemma {:induction false} ForgivingLeavesDropped(catalog: Catalog, flags: seq<RawFlag>, maxFlags: nat, n: nat)
    requires n <= |flags|
    ensures var seen := SeenIn(catalog, flags, maxFlags, |flags|);
            Unforgiven(RejectedIn(catalog, flags, maxFlags, n), seen) == DroppedIn(flags, seen, n)
  {
    hide Eligible, EntryOf;
    if n > 0 {
      ForgivingLeavesDropped(catalog, flags, maxFlags, n - 1);
      SeenGrows(catalog, flags, maxFlags, n, |flags|);
      var rest, all := RejectedIn(catalog, flags, maxFlags, n - 1), RejectedIn(catalog, flags, maxFlags, n);
      if all != rest { assert all[..|all| - 1] == rest; }
    }
  }

  lemma {:induction false} SeenGrows(catalog: Catalog, flags: seq<RawFlag>, maxFlags: nat, m: nat, n: nat)
    requires m <= n <= |flags|
    ensures SeenIn(catalog, flags, maxFlags, m) <= SeenIn(catalog, flags, maxFlags, n)
  {
    if m < n { SeenGrows(catalog, flags, maxFlags, m, n - 1); }
  }

  method SanitizeFlags(catalog: Catalog, flags: seq<RawFlag>, maxFlags: nat, sort: bool) returns (r: SanitizedFlags)
    ensures r == Sanitized(catalog, flags, maxFlags, sort)
  {
    hide Trim, NameOf;
    var seen: set<string> := {};
    var accepted: seq<string> := [];
    var rejected: seq<Entry> := [];
    for index := 0 to |flags|
      invariant seen == SeenIn(catalog, flags, maxFlags, index)
      invariant accepted == AcceptedIn(catalog, flags, maxFlags, index)
      invariant rejected == RejectedIn(catalog, flags, maxFlags, index)
    {
      if flags[index].NotText? {
        var text := flags[index].shown;
        if text != "" { rejected := rejected + [Entry(text, NameOf(text))]; }
        continue;
      }
      var trimmed := Trim(flags[index].s);
      var name := NameOf(trimmed);
      var reject := index >= maxFlags || !(trimmed != "" && trimmed[0] == '-');
      if !reject {
        NameIsPrefix(trimmed);
        var value := if |trimmed| == |name| then None else Some(trimmed[|name| + 1..]);
        if name !in catalog {
          reject := true;
        } else {
          var spec := catalog[name];
          if !spec.takesValue && value.Some? {
            reject := true;
          } else if spec.takesValue && (value.None? || !(spec.valuePattern.Some? && spec.valuePattern.value(value.value))) {
            reject := true;
          } else if name in seen {
            reject := true;
          }
        }
      }
      if reject {
        if trimmed != "" { rejected := rejected + [Entry(trimmed, name)]; }
        continue;
      }
      seen := seen + {name};
      accepted := accepted + [trimmed];
    }
    ForgivingLeavesDropped(catalog, flags, maxFlags, |flags|);
    return SanitizedFlags(if sort then Sorted(accepted) else accepted, Take(Unforgiven(rejected, seen), maxFlags));
  }

  lemma NameIsPrefix(flag: string)
    ensures |NameOf(flag)| <= |flag| && NameOf(flag) == flag[..|NameOf(flag)|]
  {
  }

  // ---- what is accepted ------------------------------------------------------------------------

  /** A list no sanitizer would touch: every flag trimmed and catalogued, no name twice. */
  ghost predicate Clean(catalog: Catalog, flags: seq<string>) {
    && (forall i :: 0 <= i < |flags| ==> Trimmed(flags[i]) && Trim(flags[i]) == flags[i] && Catalogued(catalog, flags[i]))
    && (forall i, j :: 0 <= i < j < |flags| ==> NameOf(flags[i]) != NameOf(flags[j]))
  }

  function Names(flags: seq<string>): set<string> { set i | 0 <= i < |flags| :: NameOf(flags[i]) }

  /** Accepted flags are clean, at most one per slot of the cap, and carry exactly the names seen. */
  lemma {:induction false} AcceptedIsClean(catalog: Catalog, flags: seq<RawFlag>, maxFlags: nat, n: nat)
    requires n <= |flags|
    ensures var a := AcceptedIn(catalog, flags, maxFlags, n);
            Clean(catalog, a) && |a| <= maxFlags && |a| <= n && Names(a) == SeenIn(catalog, flags, maxFlags, n)
  {
    hide Trim, NameOf, Catalogued, Trimmed;
    if n > 0 {
      AcceptedIsClean(catalog, flags, maxFlags, n - 1);
      var before, a := AcceptedIn(catalog, flags, maxFlags, n - 1), AcceptedIn(catalog, flags, maxFlags, n);
      if Taken(catalog, flags, maxFlags, n - 1) {
        TrimIsTrimmed(flags[n - 1].s);
        assert Names(a) == Names(before) + {NameOf(a[|before|])} by { NamesOfLast(before, a[|before|]); }
        forall i | 0 <= i < |before| ensures NameOf(before[i]) in Names(before) {}
      } else {
        assert a == before;
        assert SeenIn(catalog, flags, maxFlags, n) == SeenIn(catalog, flags, maxFlags, n - 1);
      }
    } else {
      assert Names([]) == {};
    }
  }

  lemma NamesOfLast(flags: seq<string>, flag: string)
    ensures Names(flags + [flag]) == Names(flags) + {NameOf(flag)}
  {
    hide NameOf;
    var all := flags + [flag];
    forall x | x in Names(flags) + {NameOf(flag)} ensures x in Names(all) {
      if x in Names(flags) {
        var i :| 0 <= i < |flags| && NameOf(flags[i]) == x;
        assert all[i] == flags[i];
      } else {
        assert all[|flags|] == flag;
      }
    }
  }

  /** The text is a catalogued flag: its name, and behind an equals sign the value its pattern accepts, if and only
      if the catalog says that it takes one. */
  ghost predicate Spelled(catalog: Catalog, text: string, name: string, value: Option<string>) {
    && text == name + (if value.Some? then "=" + value.value else "")
    && name != "" && name[0] == '-' && '=' !in name && name in catalog
    && catalog[name].takesValue == value.Some?
    && (value.Some? ==> catalog[name].valuePattern.Some? && catalog[name].valuePattern.value(value.value))
  }

  lemma SpelledHasName(catalog: Catalog, text: string, name: string, value: Option<string>)
    requires Spelled(catalog, text, name, value)
    ensures NameOf(text) == name && Catalogued(catalog, text)
  {
    var rest := if value.Some? then "=" + value.value else "";
    NameEnds(name, rest);
    assert text[..|name|] == name;
    if value.Some? { assert text[|name| + 1..] == value.value; }
  }

  lemma {:induction false} NameEnds(name: string, rest: string)
    requires '=' !in name && (rest != "" ==> rest[0] == '=')
    ensures IndexOfChar(name + rest, '=') == |name|
  {
    if name != "" {
      NameEnds(name[1..], rest);
      assert (name + rest)[1..] == name[1..] + rest;
    }
  }

  lemma CataloguedIsSpelled(catalog: Catalog, text: string)
    requires Catalogued(catalog, text)
    ensures exists value :: Spelled(catalog, text, NameOf(text), value)
  {
    var name := NameOf(text);
    NameIsPrefix(text);
    if |text| == |name| {
      assert name + "" == text;
      assert Spelled(catalog, text, name, None);
    } else {
      var value := text[|name| + 1..];
      assert text == name + ("=" + value);
      assert Spelled(catalog, text, name, Some(value));
    }
  }

  /** Entry `i`, trimmed, is a catalogued flag of this name. */
  ghost predicate Means(catalog: Catalog, flags: seq<RawFlag>, i: nat, name: string) {
    i < |flags| && flags[i].Text? && exists value :: Spelled(catalog, Trim(flags[i].s), name, value)
  }

  /** Entry `i` stands before the cap, and is the first there to be a catalogued flag of its name. */
  ghost predicate FirstOfName(catalog: Catalog, flags: seq<RawFlag>, maxFlags: nat, i: nat) {
    i < maxFlags && exists name :: Means(catalog, flags, i, name) && forall j: nat :: j < i ==> !Means(catalog, flags, j, name)
  }

  lemma EligibleMeans(catalog: Catalog, flags: seq<RawFlag>, maxFlags: nat, i: nat, name: string)
    requires i < |flags|
    ensures i < maxFlags && Means(catalog, flags, i, name) <==> Eligible(catalog, flags[i], i, maxFlags) && EntryOf(flags[i]).name == name
  {
    hide Trim, NameOf, Spelled, Catalogued;
    if flags[i].Text? {
      var text := Trim(flags[i].s);
      if value :| Spelled(catalog, text, name, value) { SpelledHasName(catalog, text, name, value); }
      if Catalogued(catalog, text) { CataloguedIsSpelled(catalog, text); }
    }
  }

  lemma {:induction false} SeenMeans(catalog: Catalog, flags: seq<RawFlag>, maxFlags: nat, n: nat, name: string)
    requires n <= |flags| && n <= maxFlags
    ensures name in SeenIn(catalog, flags, maxFlags, n) <==> exists j: nat :: j < n && Means(catalog, flags, j, name)
  {
    hide Means, Eligible, EntryOf;
    if n > 0 {
      SeenMeans(catalog, flags, maxFlags, n - 1, name);
      EligibleMeans(catalog, flags, maxFlags, n - 1, name);
    }
  }

  lemma TakenIsFirst(catalog: Catalog, flags: seq<RawFlag>, maxFlags: nat, i: nat)
    requires i < |flags|
    ensures Taken(catalog, flags, maxFlags, i) <==> FirstOfName(catalog, flags, maxFlags, i)
  {
    hide Means, EntryOf, Catalogued, Trim;
    if i < maxFlags {
      var own := EntryOf(flags[i]).name;
      EligibleMeans(catalog, flags, maxFlags, i, own);
      SeenMeans(catalog, flags, maxFlags, i, own);
      forall name | Means(catalog, flags, i, name) ensures name == own { EligibleMeans(catalog, flags, maxFlags, i, name); }
    }
  }

  /** The accepted list: the entries before the cap that are the first catalogued flag of their name, trimmed, in
      list order; `at` says which. */
  lemma {:induction false} AcceptedAreFirst(catalog: Catalog, flags: seq<RawFlag>, maxFlags: nat, n: nat) returns (at: seq<nat>)
    requires n <= |flags|
    ensures |at| == |AcceptedIn(catalog, flags, maxFlags, n)|
    ensures forall k :: 0 <= k < |at| ==>
              && at[k] < n && flags[at[k]].Text? && AcceptedIn(catalog, flags, maxFlags, n)[k] == Trim(flags[at[k]].s)
    ensures forall k, m :: 0 <= k < m < |at| ==> at[k] < at[m]
    ensures forall i: nat :: i in at <==> i < n && FirstOfName(catalog, flags, maxFlags, i)
  {
    hide FirstOfName, Trim, Catalogued;
    at := [];
    if n > 0 {
      at := AcceptedAreFirst(catalog, flags, maxFlags, n - 1);
      TakenIsFirst(catalog, flags, maxFlags, n - 1);
      if Taken(catalog, flags, maxFlags, n - 1) { at := at + [n - 1]; }
    }
  }

  function TrimmedAt(flags: seq<RawFlag>, at: seq<nat>): (r: seq<string>)
    requires forall k :: 0 <= k < |at| ==> at[k] < |flags| && flags[at[k]].Text?
    ensures |r| == |at|
  {
    seq(|at|, k requires 0 <= k < |at| => Trim(flags[at[k]].s))
  }

  /** What reaches the engine: of the entries before the cap the first catalogued flag of each name, trimmed; in list
      order, or sorted. */
  lemma SanitizedAreFirst(catalog: Catalog, flags: seq<RawFlag>, maxFlags: nat, sort: bool) returns (at: seq<nat>)
    ensures forall k :: 0 <= k < |at| ==> at[k] < |flags| && flags[at[k]].Text?
    ensures forall k, m :: 0 <= k < m < |at| ==> at[k] < at[m]
    ensures forall i: nat :: i in at <==> i < |flags| && FirstOfName(catalog, flags, maxFlags, i)
    ensures var r := Sanitized(catalog, flags, maxFlags, sort).flags;
            if sort then Ascending(r) && multiset(r) == multiset(TrimmedAt(flags, at)) else r == TrimmedAt(flags, at)
  {
    hide FirstOfName, Trim;
    at := AcceptedAreFirst(catalog, flags, maxFlags, |flags|);
    assert TrimmedAt(flags, at) == AcceptedIn(catalog, flags, maxFlags, |flags|);
    SortedSorts(AcceptedIn(catalog, flags, maxFlags, |flags|));
  }

  /** The text by which an element is reported. */
  ghost predicate ReportedAs(f: RawFlag, text: string) { match f case Text(s) => text == Trim(s) case NotText(shown) => text == shown }

  /** The name in a text ends at its first equals sign. */
  ghost predicate Named(text: string, name: string) {
    name <= text && '=' !in name && (|name| < |text| ==> text[|name|] == '=')
  }

  /** Element `i` has a text to report, and its name is none of these. */
  ghost predicate Unmet(flags: seq<RawFlag>, names: set<string>, i: nat) {
    i < |flags| && exists text, name :: ReportedAs(flags[i], text) && text != "" && Named(text, name) && name !in names
  }

  lemma UnmetIsDropped(flags: seq<RawFlag>, names: set<string>, i: nat)
    requires i < |flags|
    ensures var e := EntryOf(flags[i]); ReportedAs(flags[i], e.raw) && (Unmet(flags, names, i) <==> e.raw != "" && e.name !in names)
  {
    hide Trim;
    var e := EntryOf(flags[i]);
    NameIsPrefix(e.raw);
    assert Named(e.raw, e.name);
    forall name | Named(e.raw, name) ensures name == e.name {
      NameEnds(name, e.raw[|name|..]);
      assert e.raw == name + e.raw[|name|..] && e.raw[..|name|] == name;
    }
  }

  /** What is reported as dropped, before the cap: in list order, each element with a text whose name reached the
      engine nowhere; `at` says which. */
  lemma {:induction false} DroppedAreUnmet(flags: seq<RawFlag>, names: set<string>, n: nat) returns (at: seq<nat>)
    requires n <= |flags|
    ensures |at| == |DroppedIn(flags, names, n)|
    ensures forall k :: 0 <= k < |at| ==> at[k] < n && ReportedAs(flags[at[k]], DroppedIn(flags, names, n)[k])
    ensures forall k, m :: 0 <= k < m < |at| ==> at[k] < at[m]
    ensures forall i: nat :: i in at <==> i < n && Unmet(flags, names, i)
  {
    hide Unmet, ReportedAs, EntryOf;
    at := [];
    if n > 0 {
      at := DroppedAreUnmet(flags, names, n - 1);
      UnmetIsDropped(flags, names, n - 1);
      var e := EntryOf(flags[n - 1]);
      if e.raw != "" && e.name !in names { at := at + [n - 1]; }
    }
  }

  // ---- rearranging -----------------------------------------------------------------------------

  lemma Occurrences(xs: seq<string>, i: nat, j: nat)
    requires i < j < |xs| && xs[i] == xs[j]
    ensures multiset(xs)[xs[i]] >= 2
  {
    assert xs == xs[..i + 1] + xs[i + 1..];
    assert xs[..i + 1][i] == xs[i] && xs[i + 1..][j - i - 1] == xs[i];
    assert xs[i] in multiset(xs[..i + 1]) && xs[i] in multiset(xs[i + 1..]);
  }

  lemma {:induction false} DistinctOnce(xs: seq<string>, x: string)
    requires forall i, j :: 0 <= i < j < |xs| ==> xs[i] != xs[j]
    ensures multiset(xs)[x] <= 1
  {
    if xs != [] {
      DistinctOnce(xs[1..], x);
      assert xs == [xs[0]] + xs[1..];
    }
  }

  lemma RearrangedIsClean(catalog: Catalog, xs: seq<string>, ys: seq<string>)
    requires Clean(catalog, xs) && multiset(xs) == multiset(ys)
    ensures Clean(catalog, ys) && |ys| == |xs| && Names(ys) == Names(xs)
  {
    hide Trim, NameOf, Catalogued, Trimmed;
    assert |xs| == |multiset(xs)| == |ys|;
    forall i | 0 <= i < |ys| ensures ys[i] in xs { assert ys[i] in multiset(ys); }
    forall i | 0 <= i < |xs| ensures xs[i] in ys { assert xs[i] in multiset(xs); }
    forall i, j | 0 <= i < j < |xs| ensures xs[i] != xs[j] { assert NameOf(xs[i]) != NameOf(xs[j]); }
    forall i, j | 0 <= i < j < |ys| ensures NameOf(ys[i]) != NameOf(ys[j]) {
      if ys[i] == ys[j] {
        Occurrences(ys, i, j);
        DistinctOnce(xs, ys[i]);
      } else {
        var p :| 0 <= p < |xs| && xs[p] == ys[i];
        var q :| 0 <= q < |xs| && xs[q] == ys[j];
        assert p < q || q < p;
      }
    }
  }

  // ---- running it again ------------------------------------------------------------------------

  function AsRaw(flags: seq<string>): (r: seq<RawFlag>)
    ensures |r| == |flags|
  {
    seq(|flags|, i requires 0 <= i < |flags| => Text(flags[i]))
  }

  /** A clean list within the cap is accepted whole. */
  lemma {:induction false} CleanIsAccepted(catalog: Catalog, flags: seq<string>, maxFlags: nat, n: nat)
    requires Clean(catalog, flags) && n <= |flags| <= maxFlags
    ensures AcceptedIn(catalog, AsRaw(flags), maxFlags, n) == flags[..n]
    ensures SeenIn(catalog, AsRaw(flags), maxFlags, n) == Names(flags[..n])
  {
    hide Trim, NameOf, Catalogued, Trimmed;
    if n > 0 {
      CleanIsAccepted(catalog, flags, maxFlags, n - 1);
      assert flags[..n] == flags[..n - 1] + [flags[n - 1]];
      NamesOfLast(flags[..n - 1], flags[n - 1]);
      assert NameOf(flags[n - 1]) !in Names(flags[..n - 1]);
    }
  }

  lemma {:induction false} NothingDropped(flags: seq<string>, names: set<string>, n: nat)
    requires n <= |flags|
    requires forall i :: 0 <= i < |flags| ==> Trim(flags[i]) == flags[i] && NameOf(flags[i]) in names
    ensures DroppedIn(AsRaw(flags), names, n) == []
  {
    hide Trim, NameOf;
    if n > 0 { NothingDropped(flags, names, n - 1); }
  }

  /** The sanitizer's output, under the same catalog, passes any later sanitizer with at least that cap
      unchanged and without a drop, whichever way that layer sorts. */
  lemma SanitizingTwiceIsOnce(catalog: Catalog, flags: seq<RawFlag>, maxFlags: nat, laterCap: nat, laterSort: bool)
    requires laterCap >= maxFlags
    ensures var once := Sanitized(catalog, flags, maxFlags, true).flags;
            Sanitized(catalog, AsRaw(once), laterCap, laterSort) == SanitizedFlags(once, [])
  {
    hide Clean, Trim, NameOf, Catalogued, Trimmed;
    var accepted := AcceptedIn(catalog, flags, maxFlags, |flags|);
    var once := Sorted(accepted);
    AcceptedIsClean(catalog, flags, maxFlags, |flags|);
    SortedSorts(accepted);
    RearrangedIsClean(catalog, accepted, once);
    CleanIsAccepted(catalog, once, laterCap, |once|);
    assert once[..|once|] == once;
    SortedIsStable(once);
    CleanEntries(catalog, once);
    NothingDropped(once, Names(once), |once|);
  }

  /** A clean list within the cap comes out whole, sorted, and without a drop. */
  lemma CleanIsKept(catalog: Catalog, flags: seq<string>, maxFlags: nat)
    requires Clean(catalog, flags) && |flags| <= maxFlags
    ensures Sanitized(catalog, AsRaw(flags), maxFlags, true) == SanitizedFlags(Sorted(flags), [])
    ensures |Sorted(flags)| == |flags|
  {
    hide Clean, Trim, NameOf, Sorted;
    CleanIsAccepted(catalog, flags, maxFlags, |flags|);
    assert flags[..|flags|] == flags;
    CleanEntries(catalog, flags);
    NothingDropped(flags, Names(flags), |flags|);
    SortedSorts(flags);
    assert |multiset(Sorted(flags))| == |multiset(flags)|;
  }

  /** Under any later cap: the drops are empty exactly when the cap is enough, or is zero and reports nothing. */
  lemma LaterDropsIffNarrow(catalog: Catalog, flags: seq<RawFlag>, maxFlags: nat, laterCap: nat, laterSort: bool)
    ensures var once := Sanitized(catalog, flags, maxFlags, true).flags;
            Sanitized(catalog, AsRaw(once), laterCap, laterSort).dropped != [] <==> 0 < laterCap < |once|
  {
    hide Clean, AcceptedIn, DroppedIn, SeenIn, Sorted, Names;
    var accepted := AcceptedIn(catalog, flags, maxFlags, |flags|);
    var once := Sorted(accepted);
    AcceptedIsClean(catalog, flags, maxFlags, |flags|);
    SortedSorts(accepted);
    RearrangedIsClean(catalog, accepted, once);
    CleanDropsIffNarrow(catalog, once, laterCap);
  }

  lemma CleanDropsIffNarrow(catalog: Catalog, flags: seq<string>, cap: nat)
    requires Clean(catalog, flags)
    ensures DroppedIn(AsRaw(flags), SeenIn(catalog, AsRaw(flags), cap, |flags|), |flags|) != [] <==> cap < |flags|
  {
    hide Clean, DroppedIn, SeenIn, AcceptedIn, Trim, NameOf;
    if cap >= |flags| {
      CleanIsAccepted(catalog, flags, cap, |flags|);
      assert flags[..|flags|] == flags;
      CleanEntries(catalog, flags);
      NothingDropped(flags, Names(flags), |flags|);
    } else {
      PastCapIsDropped(catalog, flags, cap);
    }
  }

  /** Of a clean list longer than the cap, the flag at the cap is dropped. */
  lemma PastCapIsDropped(catalog: Catalog, flags: seq<string>, cap: nat)
    requires Clean(catalog, flags) && cap < |flags|
    ensures DroppedIn(AsRaw(flags), SeenIn(catalog, AsRaw(flags), cap, |flags|), |flags|) != []
  {
    hide Trim, NameOf, Catalogued, Trimmed;
    SeenStops(catalog, flags, cap, |flags|);
    CleanIsAccepted(catalog, flags[..cap], cap, cap);
    SeenOfPrefix(catalog, flags, cap, cap);
    var names := SeenIn(catalog, AsRaw(flags), cap, |flags|);
    assert flags[..cap][..cap] == flags[..cap];
    assert NameOf(flags[cap]) !in Names(flags[..cap]);
    assert Trim(flags[cap]) == flags[cap] && flags[cap] != "" by { CleanText(catalog, flags, cap); }
  }

  lemma CleanText(catalog: Catalog, flags: seq<string>, i: nat)
    requires Clean(catalog, flags) && i < |flags|
    ensures Trim(flags[i]) == flags[i] && flags[i] != ""
  {
    CleanEntries(catalog, flags);
  }

  /** Entries at or past the cap are never seen. */
  lemma {:induction false} SeenStops(catalog: Catalog, flags: seq<string>, cap: nat, n: nat)
    requires cap <= n <= |flags|
    ensures SeenIn(catalog, AsRaw(flags), cap, n) == SeenIn(catalog, AsRaw(flags), cap, cap)
    decreases n
  {
    hide Trim, NameOf, Catalogued;
    if n > cap { SeenStops(catalog, flags, cap, n - 1); }
  }

  lemma {:induction false} SeenOfPrefix(catalog: Catalog, flags: seq<string>, cap: nat, n: nat)
    requires n <= cap <= |flags|
    ensures SeenIn(catalog, AsRaw(flags), cap, n) == SeenIn(catalog, AsRaw(flags[..cap]), cap, n)
  {
    hide Trim, NameOf, Catalogued;
    if n > 0 {
      SeenOfPrefix(catalog, flags, cap, n - 1);
      assert AsRaw(flags)[n - 1] == AsRaw(flags[..cap])[n - 1];
    }
  }

  lemma CleanEntries(catalog: Catalog, flags: seq<string>)
    requires Clean(catalog, flags)
    ensures forall i :: 0 <= i < |flags| ==> Trim(flags[i]) == flags[i] && NameOf(flags[i]) in Names(flags)
  {
  }

  /** Without the gateway's sort the list can still change: an engine that sorts reorders it. */
  lemma UnsortedMayChange(catalog: Catalog, a: string, b: string, cap: nat)
    requires Clean(catalog, [b, a]) && AtMost(a, b) && a != b && cap >= 2
    ensures var once := Sanitized(catalog, [Text(b), Text(a)], cap, false).flags;
            once == [b, a] && Sanitized(catalog, AsRaw(once), cap, true).flags == [a, b]
  {
    hide Clean, Trim, NameOf, Catalogued, Trimmed;
    CleanIsAccepted(catalog, [b, a], cap, 2);
    assert AsRaw([b, a]) == [Text(b), Text(a)] && [b, a][..2] == [b, a];
    AtMostTotal(a, b);
    assert Sorted([b, a]) == Insert(b, Sorted([a])) && Sorted([a]) == [a] by {
      assert [b, a][1..] == [a] && [a][1..] == [];
    }
    assert Insert(b, [a]) == [a] + Insert(b, []) by { assert [a][1..] == []; }
  }

  /** Where each list element with text ended up: its name was accepted, or it is among the drops,
      which are cut to the cap. */
  lemma {:induction false} EveryEntryAccounted(catalog: Catalog, flags: seq<RawFlag>, maxFlags: nat, sort: bool, i: nat)
    requires i < |flags| && EntryOf(flags[i]).raw != ""
    ensures var r := Sanitized(catalog, flags, maxFlags, sort);
            var all := DroppedIn(flags, Names(r.flags), |flags|);
            && Clean(catalog, r.flags)
            && r.dropped == Take(all, maxFlags)
            && (EntryOf(flags[i]).name in Names(r.flags) <==> EntryOf(flags[i]).raw !in all)
  {
    hide Clean, EntryOf, NameOf, Trim;
    var accepted := AcceptedIn(catalog, flags, maxFlags, |flags|);
    AcceptedIsClean(catalog, flags, maxFlags, |flags|);
    SortedSorts(accepted);
    RearrangedIsClean(catalog, accepted, Sorted(accepted));
    DroppedMeans(flags, Names(accepted), |flags|, i);
  }

  lemma {:induction false} DroppedMeans(flags: seq<RawFlag>, names: set<string>, n: nat, i: nat)
    requires i < n <= |flags| && EntryOf(flags[i]).raw != ""
    ensures EntryOf(flags[i]).name in names <==> EntryOf(flags[i]).raw !in DroppedIn(flags, names, n)
  {
    NameOfRaw(flags, names, n, EntryOf(flags[i]).raw);
    if i < n - 1 { DroppedMeans(flags, names, n - 1, i); }
  }

  /** A dropped text determines its name, and that name is not among the accepted ones. */
  lemma {:induction false} NameOfRaw(flags: seq<RawFlag>, names: set<string>, n: nat, raw: string)
    requires n <= |flags|
    ensures raw in DroppedIn(flags, names, n) ==> NameOf(raw) !in names
  {
    hide NameOf, Trim;
    if n > 0 {
      NameOfRaw(flags, names, n - 1, raw);
      assert EntryOf(flags[n - 1]).name == NameOf(EntryOf(flags[n - 1]).raw);
    }
  }
}
