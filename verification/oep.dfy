/**
 The string and list handling of the OEP driver's `main`: every
 command-line argument (the program name included) has its '=' and '-'
 characters turned into blanks, its first whitespace-delimited word is
 read as a key, and the key "test" switches the program into test mode,
 which selects the input file "test_input" instead of "input". Separately,
 the convergence criteria get "each_energy" appended unless they already
 name it.

 Whitespace is that of the C locale: blank, tab, newline, vertical tab,
 form feed and carriage return.
 */
module Oep {

  /** The key that switches on test mode. */
  const TestKey: string := "test"
  /** The input file used normally. */
  const DefaultInput: string := "input"
  /** The input file written and used in test mode. */
  const TestInput: string := "test_input"
  /** The convergence criterion the driver insists on. */
  const EachEnergy: string := "each_energy"

  /** `isspace` in the C locale. */
  predicate IsSpace(c: char)
  {
    c == ' ' || c == '\t' || c == '\n' || c == '\r' || c as int == 11 || c as int == 12
  }

  /**
   Every occurrence of `from` replaced by `to`, in one forward pass. This is
   what `std::replace` does, and what the usual `std::replace_copy`
   implementations do when the output range is the input range.
   */
  function Replace(s: string, from: char, to: char): (r: string)
    ensures |r| == |s|
    decreases |s|
  {
    if |s| == 0 then []
    else [if s[0] == from then to else s[0]] + Replace(s[1..], from, to)
  }

  /** The argument after both replacements: '=' and then '-' become blanks. */
  function Normalise(arg: string): (r: string)
    ensures |r| == |arg|
  {
    Replace(Replace(arg, '=', ' '), '-', ' ')
  }

  /**
   Normalising changes exactly the '=' and '-' characters, each into a
   blank, and keeps every other character in its place.
   */
  lemma {:induction false} NormaliseAt(arg: string, i: nat)
    requires i < |arg|
    ensures Normalise(arg)[i] == if arg[i] == '=' || arg[i] == '-' then ' ' else arg[i]
  {
    ReplaceAt(arg, '=', ' ', i);
    ReplaceAt(Replace(arg, '=', ' '), '-', ' ', i);
  }

  lemma {:induction false} ReplaceAt(s: string, from: char, to: char, i: nat)
    requires i < |s|
    ensures Replace(s, from, to)[i] == if s[i] == from then to else s[i]
    decreases |s|
  {
    if i > 0 {
      ReplaceAt(s[1..], from, to, i - 1);
    }
  }

  /** Normalising twice is normalising once. */
  lemma NormaliseIdempotent(arg: string)
    ensures Normalise(Normalise(arg)) == Normalise(arg)
  {
    var n := Normalise(arg);
    forall i | 0 <= i < |arg|
      ensures Normalise(n)[i] == n[i]
    {
      NormaliseAt(arg, i);
      NormaliseAt(n, i);
    }
  }

  /** The stream skipping leading whitespace before it extracts a word. */
  function SkipSpace(s: string): (r: string)
    ensures |r| <= |s|
    decreases |s|
  {
    if |s| > 0 && IsSpace(s[0]) then SkipSpace(s[1..]) else s
  }

  /** The stream reading a word: characters up to the next whitespace or the end. */
  function Word(s: string): (r: string)
    ensures |r| <= |s|
    decreases |s|
  {
    if |s| > 0 && !IsSpace(s[0]) then [s[0]] + Word(s[1..]) else []
  }

  /** What `sa >> key` leaves in a fresh `key`: the first word, or empty when there is none. */
  function Key(s: string): (r: string)
    ensures |r| <= |s|
    ensures forall p :: 0 <= p < |r| ==> !IsSpace(r[p])
  {
    WordIsPrefix(SkipSpace(s));
    Word(SkipSpace(s))
  }

  /** Number of leading whitespace characters. */
  function Lead(s: string): (n: nat)
    ensures n <= |s|
    decreases |s|
  {
    if |s| > 0 && IsSpace(s[0]) then 1 + Lead(s[1..]) else 0
  }

  /** Skipping whitespace drops exactly the leading run, and what follows it is not whitespace. */
  lemma {:induction false} SkipSpaceDrops(s: string)
    ensures SkipSpace(s) == s[Lead(s)..]
    ensures forall p :: 0 <= p < Lead(s) ==> IsSpace(s[p])
    ensures Lead(s) == |s| || !IsSpace(s[Lead(s)])
    decreases |s|
  {
    if |s| > 0 && IsSpace(s[0]) {
      SkipSpaceDrops(s[1..]);
      forall p | 0 <= p < Lead(s)
        ensures IsSpace(s[p])
      {
        if p > 0 {
          assert s[p] == s[1..][p - 1];
        }
      }
    }
  }

  /** A word is a prefix free of whitespace, ending at whitespace or at the end of the string. */
  lemma {:induction false} WordIsPrefix(s: string)
    ensures Word(s) == s[..|Word(s)|]
    ensures forall p :: 0 <= p < |Word(s)| ==> !IsSpace(Word(s)[p])
    ensures |Word(s)| == |s| || IsSpace(s[|Word(s)|])
    decreases |s|
  {
    if |s| > 0 && !IsSpace(s[0]) {
      WordIsPrefix(s[1..]);
      var w := Word(s);
      forall p | 0 <= p < |w|
        ensures !IsSpace(w[p])
      {
        if p > 0 {
          assert w[p] == Word(s[1..])[p - 1];
        }
      }
    }
  }

  /**
   The key is the first maximal run of non-whitespace characters: empty
   exactly when the argument is all whitespace, and otherwise the run that
   starts after the leading whitespace and stops at the next whitespace or
   at the end.
   */
  lemma KeyIsFirstWord(s: string)
    ensures Key(s) == [] <==> forall p :: 0 <= p < |s| ==> IsSpace(s[p])
    ensures Lead(s) + |Key(s)| <= |s|
    ensures Key(s) == s[Lead(s)..Lead(s) + |Key(s)|]
    ensures forall p :: 0 <= p < Lead(s) ==> IsSpace(s[p])
    ensures forall p :: 0 <= p < |Key(s)| ==> !IsSpace(Key(s)[p])
    ensures Lead(s) + |Key(s)| == |s| || IsSpace(s[Lead(s) + |Key(s)|])
  {
    SkipSpaceDrops(s);
    var rest := s[Lead(s)..];
    WordIsPrefix(rest);
    if Key(s) != [] {
      assert !IsSpace(s[Lead(s)]);
    }
    assert rest[..|Key(s)|] == s[Lead(s)..Lead(s) + |Key(s)|];
    if Lead(s) + |Key(s)| < |s| {
      assert s[Lead(s) + |Key(s)|] == rest[|Key(s)|];
    }
  }

  /** The argument asks for test mode: its normalised key is exactly "test". */
  predicate AsksForTest(arg: string)
  {
    Key(Normalise(arg)) == TestKey
  }

  /**
   The argument loop: test mode is on exactly when some argument, the
   program name included, asks for it; it starts off and is never cleared.
   */
  method ParseArgs(args: seq<string>) returns (test: bool)
    ensures test <==> exists i :: 0 <= i < |args| && AsksForTest(args[i])
  {
    test := false;
    var i := 0;
    while i < |args|
      invariant i <= |args|
      invariant test <==> exists j :: 0 <= j < i && AsksForTest(args[j])
    {
      var key := Key(Normalise(args[i]));
      if key == TestKey {
        test := true;
      }
      i := i + 1;
    }
  }

  /** The input file chosen after the argument loop. */
  function InputName(test: bool): (r: string)
    ensures r == TestInput <==> test
    ensures r == DefaultInput <==> !test
  {
    if test then TestInput else DefaultInput
  }

  /** Adding arguments never switches test mode off. */
  lemma TestModeMonotone(args: seq<string>, more: seq<string>)
    requires exists i :: 0 <= i < |args| && AsksForTest(args[i])
    ensures exists i :: 0 <= i < |args + more| && AsksForTest((args + more)[i])
  {
    var i :| 0 <= i < |args| && AsksForTest(args[i]);
    assert (args + more)[i] == args[i];
  }

  /** `--test` asks for test mode: the dashes become blanks and the first word is "test". */
  lemma DashedTestAsks()
    ensures AsksForTest("--test")
  {
    assert Normalise("--test") == "  test";
    assert SkipSpace("  test") == "test";
  }

  /** `test=1` asks for test mode: the first word stops at the blank that replaced '='. */
  lemma AssignedTestAsks()
    ensures AsksForTest("test=1")
  {
    assert Normalise("test=1") == "test 1";
    assert Word("test 1") == "test";
  }

  /** `--test-x` asks for test mode: the '-' inside the argument ends the word too. */
  lemma SuffixedTestAsks()
    ensures AsksForTest("--test-x")
  {
    NormaliseSuffixed();
    KeySuffixed();
  }

  lemma KeySuffixed()
    ensures Key("  test x") == "test"
  {
    assert SkipSpace("  test x") == "test x";
    assert Word("test x") == "test";
  }

  lemma NormaliseSuffixed()
    ensures Normalise("--test-x") == "  test x"
  {
    forall i | 0 <= i < 8
      ensures Normalise("--test-x")[i] == "  test x"[i]
    {
      NormaliseAt("--test-x", i);
    }
  }

  /** `testing` does not: its key is the whole word, not a prefix of it. */
  lemma LongerWordDoesNotAsk()
    ensures !AsksForTest("testing")
  {
    assert Normalise("testing") == "testing";
    assert Word("testing") == "testing";
  }

  /** `std::find`: the position of the first occurrence of x, or the end when there is none. */
  method Find(list: seq<string>, x: string) returns (pos: nat)
    ensures pos <= |list|
    ensures pos == |list| <==> x !in list
    ensures pos < |list| ==> list[pos] == x
    ensures forall p :: 0 <= p < pos ==> list[p] != x
  {
    pos := 0;
    while pos < |list| && list[pos] != x
      invariant pos <= |list|
      invariant forall p :: 0 <= p < pos ==> list[p] != x
    {
      pos := pos + 1;
    }
  }

  /** The convergence criteria with "each_energy" appended unless they already contain it. */
  method EnsureEachEnergy(criteria: seq<string>) returns (r: seq<string>)
    ensures r == WithEachEnergy(criteria)
    ensures EachEnergy in r
  {
    var pos := Find(criteria, EachEnergy);
    r := criteria;
    if pos == |criteria| {
      r := r + [EachEnergy];
    }
  }

  /** The criteria the driver stores back. */
  function WithEachEnergy(criteria: seq<string>): (r: seq<string>)
    ensures EachEnergy in r
    ensures criteria <= r
    ensures |r| <= |criteria| + 1
    ensures multiset(r) == multiset(criteria) + if EachEnergy in criteria then multiset{} else multiset{EachEnergy}
  {
    if EachEnergy in criteria then criteria else criteria + [EachEnergy]
  }

  /**
   The insertion keeps the existing criteria in order, adds nothing but
   "each_energy", and adds it only when it is missing: a list that already
   names it comes back unchanged, and one that does not gains it once, at
   the end.
   */
  lemma WithEachEnergyKeeps(criteria: seq<string>)
    ensures EachEnergy in WithEachEnergy(criteria)
    ensures WithEachEnergy(criteria)[..|criteria|] == criteria
    ensures (set x | x in WithEachEnergy(criteria)) == (set x | x in criteria) + {EachEnergy}
    ensures multiset(WithEachEnergy(criteria))[EachEnergy] ==
              if EachEnergy in criteria then multiset(criteria)[EachEnergy] else 1
    ensures EachEnergy in criteria ==> WithEachEnergy(criteria) == criteria
    ensures EachEnergy !in criteria ==> WithEachEnergy(criteria) == criteria + [EachEnergy]
  {
    if EachEnergy !in criteria {
      assert multiset(criteria)[EachEnergy] == 0;
      assert (criteria + [EachEnergy])[..|criteria|] == criteria;
    }
  }

  /**
   The insertion is the only list that keeps the criteria as a prefix and
   adds "each_energy" to them exactly when it is missing.
   */
  lemma WithEachEnergyUnique(criteria: seq<string>, r: seq<string>)
    requires criteria <= r
    requires multiset(r) == multiset(criteria) + if EachEnergy in criteria then multiset{} else multiset{EachEnergy}
    ensures r == WithEachEnergy(criteria)
  {
    var tail := r[|criteria|..];
    assert r == criteria + tail;
    assert multiset(r) == multiset(criteria) + multiset(tail);
    var added := if EachEnergy in criteria then multiset{} else multiset{EachEnergy};
    assert multiset(tail) == multiset(r) - multiset(criteria) == added;
    assert |tail| == |multiset(tail)| == |added|;
    if EachEnergy !in criteria {
      assert tail[0] in multiset(tail);
      assert tail == [EachEnergy];
    }
  }

  /** Inserting twice is inserting once. */
  lemma WithEachEnergyIdempotent(criteria: seq<string>)
    ensures WithEachEnergy(WithEachEnergy(criteria)) == WithEachEnergy(criteria)
  {
    WithEachEnergyKeeps(criteria);
  }
}
