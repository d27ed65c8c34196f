/** The artifact resolver of `updateApplication` (updater.go:120-144): keep the
    artifacts whose name is the configured one and that have not expired, then
    pick the latest by creation time in one pass, replacing the running choice
    only on a strictly later timestamp. */
module Selection {
  import opened Wrappers

  /** One entry of the registry's artifact list, as decoded from JSON. */
  datatype Artifact = Artifact(
    id: int,
    name: string,
    url: string,
    archiveDownloadUrl: string,
    expired: bool,
    createdAt: string)

  /** Why no artifact could be chosen. */
  datatype SelectError =
    | NotFound(name: string)           // no artifact with that name, or all expired
    | MalformedTimestamp(value: string) // a creation time that is not an RFC 3339 date-time

  /** Parsing a creation time (section 5.6 of RFC 3339) to an instant; `None` is
      a parse error. The grammar itself is not part of this model. */
  type Parser = string -> Option<int>

  predicate Eligible(a: Artifact, name: string) {
    a.name == name && !a.expired
  }

  predicate Parses(a: Artifact, parse: Parser) {
    parse(a.createdAt).Some?
  }

  function Instant(a: Artifact, parse: Parser): int
    requires Parses(a, parse)
  {
    parse(a.createdAt).value
  }

  /** The eligible artifacts, in list order (the appending loop of updater.go:122-127). */
  function Filter(arts: seq<Artifact>, name: string): (r: seq<Artifact>)
    ensures |r| <= |arts|
    ensures forall i :: 0 <= i < |r| ==> r[i] in arts && Eligible(r[i], name)
  {
    if arts == [] then []
    else
      var last := arts[|arts| - 1];
      var rest := Filter(arts[..|arts| - 1], name);
      assert forall i :: 0 <= i < |rest| ==> rest[i] in arts by {
        forall i | 0 <= i < |rest| ensures rest[i] in arts {
          var j :| 0 <= j < |arts| - 1 && arts[..|arts| - 1][j] == rest[i];
          assert arts[j] == rest[i];
        }
      }
      if Eligible(last, name) then rest + [last] else rest
  }

  /** The running-latest pass over the first `n` filtered artifacts
      (updater.go:129-138): the index of the current choice, or the first parse
      error met. Like the source, each step parses the current choice and then
      the next candidate, and moves only when the candidate is strictly after. */
  function Scan(f: seq<Artifact>, parse: Parser, n: nat): (r: Result<nat, SelectError>)
    requires 1 <= n <= |f|
    ensures r.Ok? ==> r.value < n
    ensures r.Err? ==> r.error.MalformedTimestamp?
  {
    if n == 1 then Ok(0)
    else
      match Scan(f, parse, n - 1)
      case Err(e) => Err(e)
      case Ok(k) =>
        match parse(f[k].createdAt)
        case None => Err(MalformedTimestamp(f[k].createdAt))
        case Some(t1) =>
          match parse(f[n - 1].createdAt)
          case None => Err(MalformedTimestamp(f[n - 1].createdAt))
          case Some(t2) => if t2 > t1 then Ok(n - 1) else Ok(k)
  }

  /** The candidate the running-latest pass ends with, over all of `f`. */
  function Latest(f: seq<Artifact>, parse: Parser): (r: Result<Artifact, SelectError>)
    requires |f| >= 1
    ensures r.Ok? ==> r.value in f
    ensures r.Err? ==> r.error.MalformedTimestamp?
  {
    match Scan(f, parse, |f|)
    case Err(e) => Err(e)
    case Ok(k) => Ok(f[k])
  }

  /** The artifact `updateApplication` goes on to download. */
  function Select(arts: seq<Artifact>, name: string, parse: Parser): (r: Result<Artifact, SelectError>)
    ensures r.Ok? ==> r.value in arts && Eligible(r.value, name)
    ensures r.Err? && r.error.NotFound? ==> r.error.name == name
  {
    var f := Filter(arts, name);
    if |f| > 1 then Latest(f, parse)
    else if |f| == 1 then Ok(f[0])
    else Err(NotFound(name))
  }

  /** The loops of updater.go:120-143, step by step: filter by appending, then
      keep a running latest artifact. */
  method ResolveArtifact(arts: seq<Artifact>, name: string, parse: Parser)
    returns (r: Result<Artifact, SelectError>)
    ensures r == Select(arts, name, parse)
  {
    var filtered := FilterEligible(arts, name);
    if |filtered| > 1 {
      r := PickLatest(filtered, parse);
    } else if |filtered| == 1 {
      r := Ok(filtered[0]);
    } else {
      r := Err(NotFound(name));
    }
  }

  /** The appending loop of updater.go:122-127. */
  method FilterEligible(arts: seq<Artifact>, name: string) returns (filtered: seq<Artifact>)
    ensures filtered == Filter(arts, name)
  {
    filtered := [];
    for i := 0 to |arts|
      invariant filtered == Filter(arts[..i], name)
    {
      FilterStep(arts, name, i);
      if arts[i].name == name && !arts[i].expired {
        filtered := filtered + [arts[i]];
      }
    }
    assert arts[..|arts|] == arts;
  }

  /** The running-latest loop of updater.go:128-138; a parse error ends it at
      once, as `checkError` panics. */
  method PickLatest(filtered: seq<Artifact>, parse: Parser) returns (r: Result<Artifact, SelectError>)
    requires |filtered| > 1
    ensures r == Latest(filtered, parse)
  {
    var last := filtered[0];
    ghost var k: nat := 0;
    for i := 1 to |filtered|
      invariant Scan(filtered, parse, i) == Ok(k)
      invariant k < i && last == filtered[k]
    {
      var t1 := parse(last.createdAt);
      if t1.None? {
        ScanErrorPersists(filtered, parse, i + 1, |filtered|);
        return Err(MalformedTimestamp(last.createdAt));
      }
      var t2 := parse(filtered[i].createdAt);
      if t2.None? {
        ScanErrorPersists(filtered, parse, i + 1, |filtered|);
        return Err(MalformedTimestamp(filtered[i].createdAt));
      }
      if t2.value > t1.value {
        last := filtered[i];
        k := i;
      }
    }
    r := Ok(last);
  }

  /** Filtering one more artifact of the list appends it when it is eligible. */
  lemma FilterStep(arts: seq<Artifact>, name: string, i: nat)
    requires i < |arts|
    ensures Filter(arts[..i + 1], name) ==
      Filter(arts[..i], name) + (if Eligible(arts[i], name) then [arts[i]] else [])
  {
    assert arts[..i + 1][..i] == arts[..i];
  }

  /** Once the pass has failed, it stays failed with the same error. */
  lemma {:induction false} ScanErrorPersists(f: seq<Artifact>, parse: Parser, n: nat, m: nat)
    requires 1 <= n <= m <= |f|
    requires Scan(f, parse, n).Err?
    ensures Scan(f, parse, m) == Scan(f, parse, n)
  {
    if m > n {
      ScanErrorPersists(f, parse, n, m - 1);
    }
  }

  /** A successful pass over two or more candidates parsed every one of them,
      chose one with the largest instant, and every candidate before the choice
      is strictly earlier: the first of several equal maxima wins. */
  lemma {:induction false} ScanLatest(f: seq<Artifact>, parse: Parser, n: nat)
    requires 2 <= n <= |f|
    requires Scan(f, parse, n).Ok?
    ensures forall j :: 0 <= j < n ==> Parses(f[j], parse)
    ensures var k := Scan(f, parse, n).value;
      Parses(f[k], parse) &&
      (forall j :: 0 <= j < n ==> Instant(f[j], parse) <= Instant(f[k], parse)) &&
      (forall j :: 0 <= j < k ==> Instant(f[j], parse) < Instant(f[k], parse))
  {
    if n > 2 {
      ScanLatest(f, parse, n - 1);
    }
  }

  /** The pass fails exactly when there are two or more candidates and one of
      them does not parse, and it reports the first such candidate. */
  lemma {:induction false} ScanFails(f: seq<Artifact>, parse: Parser, n: nat)
    requires 1 <= n <= |f|
    ensures Scan(f, parse, n).Err? <==> 2 <= n && exists j :: 0 <= j < n && !Parses(f[j], parse)
    ensures Scan(f, parse, n).Err? ==>
      exists j :: 0 <= j < n && !Parses(f[j], parse) &&
        Scan(f, parse, n).error == MalformedTimestamp(f[j].createdAt) &&
        forall i :: 0 <= i < j ==> Parses(f[i], parse)
  {
    if n > 1 {
      ScanFails(f, parse, n - 1);
      if Scan(f, parse, n - 1).Ok? && n - 1 >= 2 {
        ScanLatest(f, parse, n - 1);
      }
    }
  }

  /** Only the parser's answers on the candidates matter. */
  lemma {:induction false} ScanUsesOnlyCandidates(f: seq<Artifact>, p1: Parser, p2: Parser, n: nat)
    requires 1 <= n <= |f|
    requires forall j :: 0 <= j < |f| ==> p1(f[j].createdAt) == p2(f[j].createdAt)
    ensures Scan(f, p1, n) == Scan(f, p2, n)
  {
    if n > 1 {
      ScanUsesOnlyCandidates(f, p1, p2, n - 1);
    }
  }

  /** Every eligible artifact of the list is kept by the filter. */
  lemma {:induction false} FilterComplete(arts: seq<Artifact>, name: string, a: Artifact)
    requires a in arts && Eligible(a, name)
    ensures a in Filter(arts, name)
  {
    var last := arts[|arts| - 1];
    if a != last {
      var i :| 0 <= i < |arts| && arts[i] == a;
      assert arts[..|arts| - 1][i] == a;
      FilterComplete(arts[..|arts| - 1], name, a);
    }
  }

  /** The filter keeps list order: the k-th kept artifact stands at some index
      i of the list, and the artifacts kept before it are exactly those the
      filter keeps from the list before i. */
  lemma {:induction false} FilterPosition(arts: seq<Artifact>, name: string, k: nat) returns (i: nat)
    requires k < |Filter(arts, name)|
    ensures i < |arts| && arts[i] == Filter(arts, name)[k]
    ensures Filter(arts[..i], name) == Filter(arts, name)[..k]
  {
    var init := arts[..|arts| - 1];
    var rest := Filter(init, name);
    if k < |rest| {
      i := FilterPosition(init, name, k);
      assert init[..i] == arts[..i];
      assert Filter(arts, name)[..k] == rest[..k];
    } else {
      i := |arts| - 1;
      assert arts[..i] == init;
    }
  }

  /** With no eligible artifact the filter is empty. */
  lemma {:induction false} FilterNone(arts: seq<Artifact>, name: string)
    requires forall j :: 0 <= j < |arts| ==> !Eligible(arts[j], name)
    ensures Filter(arts, name) == []
  {
    if arts != [] {
      FilterNone(arts[..|arts| - 1], name);
    }
  }

  /** Selection fails with NotFound exactly when no artifact of the list is
      eligible, and then it is the only error possible. */
  lemma SelectNotFound(arts: seq<Artifact>, name: string, parse: Parser)
    ensures Select(arts, name, parse) == Err(NotFound(name)) <==>
      forall a :: a in arts ==> !Eligible(a, name)
  {
    if exists a :: a in arts && Eligible(a, name) {
      var a :| a in arts && Eligible(a, name);
      FilterComplete(arts, name, a);
      var f := Filter(arts, name);
      if |f| > 1 {
        ScanFails(f, parse, |f|);
      }
    } else {
      FilterNone(arts, name);
    }
  }

  /** An artifact that is the only eligible one in the list is chosen whatever
      the parser says: its creation time is never parsed. */
  lemma {:induction false} SelectSingle(arts: seq<Artifact>, name: string, parse: Parser, i: nat)
    requires i < |arts| && Eligible(arts[i], name)
    requires forall j :: 0 <= j < |arts| && j != i ==> !Eligible(arts[j], name)
    ensures Select(arts, name, parse) == Ok(arts[i])
  {
    FilterSingle(arts, name, i);
  }

  lemma {:induction false} FilterSingle(arts: seq<Artifact>, name: string, i: nat)
    requires i < |arts| && Eligible(arts[i], name)
    requires forall j :: 0 <= j < |arts| && j != i ==> !Eligible(arts[j], name)
    ensures Filter(arts, name) == [arts[i]]
  {
    var init := arts[..|arts| - 1];
    if i == |arts| - 1 {
      FilterNone(init, name);
    } else {
      FilterSingle(init, name, i);
    }
  }

  /** With two or more eligible artifacts, the chosen one has the latest
      creation time of all eligible artifacts. */
  lemma SelectLatest(arts: seq<Artifact>, name: string, parse: Parser)
    requires |Filter(arts, name)| >= 2
    requires Select(arts, name, parse).Ok?
    ensures Parses(Select(arts, name, parse).value, parse)
    ensures forall b :: b in arts && Eligible(b, name) ==>
      Parses(b, parse) && Instant(b, parse) <= Instant(Select(arts, name, parse).value, parse)
  {
    var f := Filter(arts, name);
    var k := Scan(f, parse, |f|).value;
    assert Select(arts, name, parse) == Ok(f[k]);
    ScanLatest(f, parse, |f|);
    forall b | b in arts && Eligible(b, name)
      ensures Parses(b, parse) && Instant(b, parse) <= Instant(f[k], parse)
    {
      FilterComplete(arts, name, b);
    }
  }

  /** With two or more eligible artifacts, every eligible artifact listed
      before the chosen one is strictly earlier: among equal latest times the
      first listed wins. */
  lemma SelectFirstAmongTies(arts: seq<Artifact>, name: string, parse: Parser)
    requires |Filter(arts, name)| >= 2
    requires Select(arts, name, parse).Ok?
    ensures Parses(Select(arts, name, parse).value, parse)
    ensures exists i :: 0 <= i < |arts| && arts[i] == Select(arts, name, parse).value &&
                        forall b :: b in arts[..i] && Eligible(b, name) ==>
                          Parses(b, parse) && Instant(b, parse) < Instant(arts[i], parse)
  {
    var f := Filter(arts, name);
    var k := Scan(f, parse, |f|).value;
    assert Select(arts, name, parse) == Ok(f[k]);
    ScanLatest(f, parse, |f|);
    var i := FilterPosition(arts, name, k);
    forall b | b in arts[..i] && Eligible(b, name)
      ensures Parses(b, parse) && Instant(b, parse) < Instant(arts[i], parse)
    {
      FilterComplete(arts[..i], name, b);
      var j :| 0 <= j < k && f[..k][j] == b;
      assert f[j] == b;
    }
    assert arts[i] == Select(arts, name, parse).value;
  }

  /** Position does not matter: an eligible artifact strictly later than every
      other eligible artifact is the one chosen, wherever it is listed. */
  lemma SelectNewest(arts: seq<Artifact>, name: string, parse: Parser, b: Artifact)
    requires b in arts && Eligible(b, name) && Parses(b, parse)
    requires forall a :: a in arts && Eligible(a, name) && a != b ==>
      Parses(a, parse) && Instant(a, parse) < Instant(b, parse)
    ensures Select(arts, name, parse) == Ok(b)
  {
    var f := Filter(arts, name);
    FilterComplete(arts, name, b);
    if |f| > 1 {
      ScanFails(f, parse, |f|);
      ScanLatest(f, parse, |f|);
    }
  }

  /** With two or more eligible artifacts, selection fails exactly when one of
      them has a creation time that does not parse, and the error names the
      creation time of such an artifact. */
  lemma SelectMalformed(arts: seq<Artifact>, name: string, parse: Parser)
    requires |Filter(arts, name)| >= 2
    ensures Select(arts, name, parse).Err? <==>
      exists a :: a in arts && Eligible(a, name) && !Parses(a, parse)
    ensures Select(arts, name, parse).Err? ==>
      exists a :: a in arts && Eligible(a, name) && !Parses(a, parse) &&
        Select(arts, name, parse).error == MalformedTimestamp(a.createdAt)
  {
    var f := Filter(arts, name);
    ScanFails(f, parse, |f|);
    if exists a :: a in arts && Eligible(a, name) && !Parses(a, parse) {
      var a :| a in arts && Eligible(a, name) && !Parses(a, parse);
      FilterComplete(arts, name, a);
    }
  }

  /** Artifacts that are not eligible are never parsed: two parsers that agree
      on the eligible artifacts give the same selection. */
  lemma SelectParsesOnlyEligible(arts: seq<Artifact>, name: string, p1: Parser, p2: Parser)
    requires forall a :: a in arts && Eligible(a, name) ==> p1(a.createdAt) == p2(a.createdAt)
    ensures Select(arts, name, p1) == Select(arts, name, p2)
  {
    var f := Filter(arts, name);
    if |f| > 1 {
      ScanUsesOnlyCandidates(f, p1, p2, |f|);
    }
  }
}
