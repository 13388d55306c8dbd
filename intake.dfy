/**
 * The named-address substitution of `fetchAndSendRoute`: every configured
 * (name, address) pair is visited in order, and whenever the case-folded name
 * equals the case-folded CURRENT search text, the text is replaced by the
 * address. Later pairs therefore compare against text that an earlier pair
 * may already have replaced: a left fold, not a first-match lookup.
 */
module Intake {

  datatype NamedAddress = NamedAddress(name: string, address: string)

  /** Case folding as `toLowerCase` does it, left abstract. */
  type CaseFold = string -> string

  /** One visit of the loop body: replace the text when the name matches it. */
  function Visit(text: string, entry: NamedAddress, lower: CaseFold): (r: string)
  {
    if lower(entry.name) == lower(text) then entry.address else text
  }

  /** The search text after visiting every entry of `named` in order. */
  function Substituted(named: seq<NamedAddress>, text: string, lower: CaseFold): (r: string)
    decreases |named|
  {
    if named == [] then text
    else Visit(Substituted(named[..|named| - 1], text, lower), named[|named| - 1], lower)
  }

  /** The lookup a reader might expect instead: the first entry whose name matches wins. */
  function FirstMatch(named: seq<NamedAddress>, text: string, lower: CaseFold): (r: string)
    decreases |named|
  {
    if named == [] then text
    else if lower(named[0].name) == lower(text) then named[0].address
    else FirstMatch(named[1..], text, lower)
  }

  predicate HasMatch(named: seq<NamedAddress>, text: string, lower: CaseFold)
  {
    exists i :: 0 <= i < |named| && lower(named[i].name) == lower(text)
  }

  /** The `forEach` over the configured entries, reassigning the search text. */
  method ResolveNamedAddress(named: seq<NamedAddress>, searchText: string, lower: CaseFold)
    returns (resolved: string)
    ensures resolved == Substituted(named, searchText, lower)
  {
    resolved := searchText;
    var i := 0;
    while i < |named|
      invariant 0 <= i <= |named|
      invariant resolved == Substituted(named[..i], searchText, lower)
    {
      assert named[..i + 1][..i] == named[..i];
      if lower(named[i].name) == lower(resolved) {
        resolved := named[i].address;
      }
      i := i + 1;
    }
    assert named[..|named|] == named;
  }

  /** Text that no entry's name matches is passed on unchanged. */
  lemma {:induction false} SubstitutedNoMatch(named: seq<NamedAddress>, text: string, lower: CaseFold)
    requires !HasMatch(named, text, lower)
    ensures Substituted(named, text, lower) == text
  {
    if named != [] {
      var init := named[..|named| - 1];
      assert !HasMatch(init, text, lower) by {
        forall i | 0 <= i < |init| ensures lower(init[i].name) != lower(text) {
          assert init[i] == named[i];
        }
      }
      SubstitutedNoMatch(init, text, lower);
    }
  }

  /** The result is the original text or the address of one of the entries. */
  lemma {:induction false} SubstitutedOrigin(named: seq<NamedAddress>, text: string, lower: CaseFold)
    ensures var r := Substituted(named, text, lower);
            r == text || exists i :: 0 <= i < |named| && r == named[i].address
  {
    if named != [] {
      var init := named[..|named| - 1];
      SubstitutedOrigin(init, text, lower);
      var before := Substituted(init, text, lower);
      if before != text && Substituted(named, text, lower) == before {
        var i :| 0 <= i < |init| && before == init[i].address;
        assert named[i] == init[i];
      }
    }
  }

  /** When some entry's name matches the search text, the text is replaced by one of the addresses. */
  lemma {:induction false} SubstitutedMatchReplaces(named: seq<NamedAddress>, text: string, lower: CaseFold)
    requires HasMatch(named, text, lower)
    ensures exists k :: 0 <= k < |named| && Substituted(named, text, lower) == named[k].address
  {
    var init := named[..|named| - 1];
    var last := named[|named| - 1];
    if HasMatch(init, text, lower) {
      SubstitutedMatchReplaces(init, text, lower);
      var k :| 0 <= k < |init| && Substituted(init, text, lower) == init[k].address;
      assert init[k] == named[k];
      if Substituted(named, text, lower) != last.address {
        assert Substituted(named, text, lower) == named[k].address;
      }
    } else {
      SubstitutedNoMatch(init, text, lower);
      assert Substituted(named, text, lower) == named[|named| - 1].address;
    }
  }

  /** Appending one entry to the list changes the first match only if nothing matched before. */
  lemma {:induction false} FirstMatchSnoc(init: seq<NamedAddress>, entry: NamedAddress, text: string, lower: CaseFold)
    ensures FirstMatch(init + [entry], text, lower) ==
            if HasMatch(init, text, lower) then FirstMatch(init, text, lower) else Visit(text, entry, lower)
  {
    if init == [] {
      assert !HasMatch(init, text, lower);
      assert init + [entry] == [entry];
    } else {
      assert (init + [entry])[1..] == init[1..] + [entry];
      FirstMatchSnoc(init[1..], entry, text, lower);
      if lower(init[0].name) != lower(text) {
        if HasMatch(init, text, lower) {
          var i :| 0 <= i < |init| && lower(init[i].name) == lower(text);
          assert init[1..][i - 1] == init[i];
        }
        if HasMatch(init[1..], text, lower) {
          var i :| 0 <= i < |init[1..]| && lower(init[1..][i].name) == lower(text);
          assert init[i + 1] == init[1..][i];
        }
      } else {
        assert lower(init[0].name) == lower(text);
      }
    }
  }

  /** When some entry matches, the first match is one of the entries' addresses. */
  lemma {:induction false} FirstMatchFound(named: seq<NamedAddress>, text: string, lower: CaseFold)
    requires HasMatch(named, text, lower)
    ensures exists k :: 0 <= k < |named| && FirstMatch(named, text, lower) == named[k].address
  {
    if lower(named[0].name) != lower(text) {
      var i :| 0 <= i < |named| && lower(named[i].name) == lower(text);
      assert named[1..][i - 1] == named[i];
      FirstMatchFound(named[1..], text, lower);
      var k :| 0 <= k < |named[1..]| && FirstMatch(named[1..], text, lower) == named[1..][k].address;
      assert named[k + 1] == named[1..][k];
    } else {
      assert FirstMatch(named, text, lower) == named[0].address;
    }
  }

  /**
   * The fold agrees with "first match wins" whenever no entry's address
   * matches the name of a later entry.
   */
  lemma {:induction false} SubstitutedIsFirstMatch(named: seq<NamedAddress>, text: string, lower: CaseFold)
    requires forall i, j :: 0 <= i < j < |named| ==> lower(named[i].address) != lower(named[j].name)
    ensures Substituted(named, text, lower) == FirstMatch(named, text, lower)
  {
    if named != [] {
      var init := named[..|named| - 1];
      var last := named[|named| - 1];
      assert init + [last] == named;
      SubstitutedIsFirstMatch(init, text, lower);
      FirstMatchSnoc(init, last, text, lower);
      if HasMatch(init, text, lower) {
        FirstMatchFound(init, text, lower);
        var k :| 0 <= k < |init| && FirstMatch(init, text, lower) == init[k].address;
        assert init[k] == named[k];
      } else {
        SubstitutedNoMatch(init, text, lower);
      }
    }
  }

  /**
   * The two differ once an address equals a later entry's name: with
   * "home" -> "work" and then "work" -> "Office 1", searching "home" ends up
   * at "Office 1", not at "work".
   */
  lemma FoldChainsSubstitutions()
    ensures var named := [NamedAddress("home", "work"), NamedAddress("work", "Office 1")];
            Substituted(named, "home", s => s) == "Office 1" &&
            FirstMatch(named, "home", s => s) == "work"
  {
    var named := [NamedAddress("home", "work"), NamedAddress("work", "Office 1")];
    assert named[..1] == [NamedAddress("home", "work")];
    assert named[..1][..0] == [];
  }

  /** ASCII upper case to lower case, a concrete instance of the case folding. */
  function AsciiLower(s: string): (r: string)
  {
    seq(|s|, i requires 0 <= i < |s| => if 'A' <= s[i] <= 'Z' then (s[i] as int + 32) as char else s[i])
  }

  /** A configured "Home" entry is found for the search text "home". */
  lemma NamedAddressExample()
    ensures Substituted([NamedAddress("Home", "1 Main St")], "home", AsciiLower) == "1 Main St"
  {
    var named := [NamedAddress("Home", "1 Main St")];
    assert named[..0] == [];
    assert AsciiLower("Home") == "home";
    assert AsciiLower("home") == "home";
  }
}
