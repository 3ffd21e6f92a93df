/** The compiled allow/IOC list: exact entries, wildcard entries and address ranges. */
module ListMatcher {
  import opened Text
  import Glob

  type Address = seq<bv8>
  datatype Network = Network(base: Address, mask: Address)

  /** The library calls the matcher relies on, left uninterpreted. */
  datatype NetLibrary = NetLibrary(
    trim: string -> string,
    lower: char -> char,
    parseCidr: string -> Option<Network>,
    parseIp: string -> Option<Address>,
    showIp: Address -> string,
    contains: (Network, Address) -> bool)
  {
    /** The form under which an address is stored and looked up. */
    function Canonical(s: string): string {
      match parseIp(s)
      case Some(ip) => showIp(ip)
      case None => s
    }

    predicate Ignored(e: string) {
      e == "" || e[0] == '#'
    }

    /** What one list entry, already trimmed, says about a candidate. */
    ghost predicate EntryCovers(e: string, candidate: string) {
      if parseCidr(e).Some? then
        parseIp(candidate).Some? && contains(parseCidr(e).value, parseIp(candidate).value)
      else if Glob.HasWildcard(e) then GlobAccepts(e, candidate)
      else Canonical(e) == Canonical(candidate)
    }

    ghost predicate GlobAccepts(e: string, candidate: string) {
      Glob.Scan(Fold(lower, e), Fold(lower, candidate), 0, 0, -1, 0)
    }

    /** The list covers a candidate when some entry that is not a comment does. */
    ghost predicate Covers(entries: seq<string>, candidate: string) {
      candidate != "" && exists i :: 0 <= i < |entries| && EntryAt(entries, i, candidate)
    }

    ghost predicate EntryAt(entries: seq<string>, i: nat, candidate: string)
      requires i < |entries|
    {
      !Ignored(trim(entries[i])) && EntryCovers(trim(entries[i]), candidate)
    }
  }

  class Matcher {
    const lib: NetLibrary
    var exact: set<string>
    var cidrs: seq<Network>
    var globs: seq<string>

    /** The tiers together answer for exactly the candidates the given entries cover. */
    ghost predicate Holds(entries: seq<string>)
      reads this
    {
      forall candidate :: candidate != "" ==>
        (lib.Covers(entries, candidate) <==> TierHit(lib, exact, cidrs, globs, candidate))
    }

    constructor Compile(lib: NetLibrary, entries: seq<string>)
      ensures this.lib == lib
      ensures Holds(entries)
    {
      this.lib := lib;
      exact, cidrs, globs := {}, [], [];
      new;
      var n := 0;
      while n < |entries|
        invariant 0 <= n <= |entries|
        invariant Holds(entries[..n])
      {
        File(entries[n], entries[..n]);
        assert entries[..n + 1] == entries[..n] + [entries[n]];
        n := n + 1;
      }
      assert entries[..n] == entries;
    }

    /** Files one raw entry under its tier. */
    method File(raw: string, ghost seen: seq<string>)
      requires Holds(seen)
      modifies this
      ensures Holds(seen + [raw])
    {
      var e := lib.trim(raw);
      ghost var exact0, cidrs0, globs0 := exact, cidrs, globs;
      if lib.Ignored(e) {
      } else if lib.parseCidr(e).Some? {
        cidrs := cidrs + [lib.parseCidr(e).value];
      } else if Glob.HasWildcard(e) {
        globs := globs + [e];
      } else {
        exact := exact + {lib.Canonical(e)};
      }
      forall candidate | candidate != ""
        ensures lib.Covers(seen + [raw], candidate) <==> TierHit(lib, exact, cidrs, globs, candidate)
      {
        CoversOneMore(lib, seen, raw, candidate);
        TierGrows(lib, exact0, cidrs0, globs0, e, candidate);
      }
    }

    /** A candidate matches exactly when some entry of the compiled list covers it. */
    method Matches(candidate: string, ghost entries: seq<string>) returns (hit: bool)
      requires Holds(entries)
      ensures hit == lib.Covers(entries, candidate)
    {
      if candidate == "" {
        return false;
      }
      if lib.Canonical(candidate) in exact {
        return true;
      }
      for i := 0 to |globs|
        invariant forall j :: 0 <= j < i ==> !lib.GlobAccepts(globs[j], candidate)
      {
        var accepted := Glob.GlobFold(lib.lower, globs[i], candidate);
        if accepted {
          return true;
        }
      }
      if lib.parseIp(candidate).None? {
        return false;
      }
      for i := 0 to |cidrs|
        invariant forall j :: 0 <= j < i ==> !lib.contains(cidrs[j], lib.parseIp(candidate).value)
      {
        if lib.contains(cidrs[i], lib.parseIp(candidate).value) {
          return true;
        }
      }
      return false;
    }
  }

  ghost predicate TierHit(lib: NetLibrary, exact: set<string>, cidrs: seq<Network>, globs: seq<string>,
                          candidate: string)
  {
    || lib.Canonical(candidate) in exact
    || (exists i :: 0 <= i < |globs| && lib.GlobAccepts(globs[i], candidate))
    || (lib.parseIp(candidate).Some?
        && exists i :: 0 <= i < |cidrs| && lib.contains(cidrs[i], lib.parseIp(candidate).value))
  }

  /** Filing an entry under its tier adds exactly the candidates that entry covers. */
  lemma TierGrows(lib: NetLibrary, exact: set<string>, cidrs: seq<Network>, globs: seq<string>,
                  e: string, candidate: string)
    ensures
      var hit := TierHit(lib, exact, cidrs, globs, candidate) || lib.EntryCovers(e, candidate);
      if lib.parseCidr(e).Some? then
        TierHit(lib, exact, cidrs + [lib.parseCidr(e).value], globs, candidate) == hit
      else if Glob.HasWildcard(e) then TierHit(lib, exact, cidrs, globs + [e], candidate) == hit
      else TierHit(lib, exact + {lib.Canonical(e)}, cidrs, globs, candidate) == hit
  {
    if lib.parseCidr(e).Some? {
      var more := cidrs + [lib.parseCidr(e).value];
      assert more[|cidrs|] == lib.parseCidr(e).value && forall i :: 0 <= i < |cidrs| ==> more[i] == cidrs[i];
    } else {
      var more := globs + [e];
      assert more[|globs|] == e && forall i :: 0 <= i < |globs| ==> more[i] == globs[i];
    }
  }

  lemma CoversOneMore(lib: NetLibrary, entries: seq<string>, raw: string, candidate: string)
    requires candidate != ""
    ensures lib.Covers(entries + [raw], candidate) <==>
              lib.Covers(entries, candidate)
              || (!lib.Ignored(lib.trim(raw)) && lib.EntryCovers(lib.trim(raw), candidate))
  {
    var all := entries + [raw];
    assert all[|entries|] == raw;
    assert forall i :: 0 <= i < |entries| ==>
      (lib.EntryAt(all, i, candidate) <==> lib.EntryAt(entries, i, candidate));
    if !lib.Ignored(lib.trim(raw)) && lib.EntryCovers(lib.trim(raw), candidate) {
      assert lib.EntryAt(all, |entries|, candidate);
    }
  }

  /** What a list covers depends neither on the order of its entries nor on repeats. */
  lemma OrderIrrelevant(lib: NetLibrary, entries: seq<string>, others: seq<string>, candidate: string)
    requires forall e :: e in entries <==> e in others
    ensures lib.Covers(entries, candidate) == lib.Covers(others, candidate)
  {
    if lib.Covers(entries, candidate) {
      CoversIn(lib, entries, others, candidate);
    }
    if lib.Covers(others, candidate) {
      CoversIn(lib, others, entries, candidate);
    }
  }

  lemma CoversIn(lib: NetLibrary, entries: seq<string>, others: seq<string>, candidate: string)
    requires forall e :: e in entries ==> e in others
    requires lib.Covers(entries, candidate)
    ensures lib.Covers(others, candidate)
  {
    var i :| 0 <= i < |entries| && lib.EntryAt(entries, i, candidate);
    assert entries[i] in entries;
    var j :| 0 <= j < |others| && others[j] == entries[i];
    assert lib.EntryAt(others, j, candidate);
  }

  /**
   A wildcard entry covers only candidates that its pattern denotes, and all of those when
   the candidate or the pattern has no star.
   */
  lemma WildcardEntry(lib: NetLibrary, e: string, candidate: string)
    requires lib.parseCidr(e).None? && Glob.HasWildcard(e)
    ensures lib.EntryCovers(e, candidate) ==> Glob.Denotes(Fold(lib.lower, e), Fold(lib.lower, candidate))
    ensures '*' !in Fold(lib.lower, candidate) || '*' !in Fold(lib.lower, e) ==>
      (lib.EntryCovers(e, candidate) <==> Glob.Denotes(Fold(lib.lower, e), Fold(lib.lower, candidate)))
  {
    var p, s := Fold(lib.lower, e), Fold(lib.lower, candidate);
    Glob.Sound(p, s);
    if '*' !in s || '*' !in p {
      Glob.Complete(p, s);
    }
  }
}
