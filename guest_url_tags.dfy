/** The `guest_url` template filter (guest_urls/templatetags/guest_url_tags.py):
    it turns a source URL and one free-text usage argument into a new, saved
    guest link. The argument is split on commas, empty pieces are dropped, the
    rest are stripped, and each of at most two arguments is read first as an
    integer (the use limit) and otherwise as a date (the expiry instant).

    The date recogniser, `try_parse_date`, is Django's own date parser with
    time-zone fixing; here it is a parameter, and `UtcDates` is one concrete
    recogniser (see IsoDates) used for the scenarios. */
module GuestUrlTags {
  import opened Wrappers
  import opened PyBuiltins
  import opened Instants
  import opened Models
  import IsoDates

  /** What a usage argument sets on the new link. */
  datatype Usage = Usage(maxUses: int, expiresAt: Option<Instant>)

  /** The filter's two refusals: the source's AssertionError for three or
      more arguments and its ValueError for an argument it cannot read. */
  datatype UsageError = TooManyArguments(usage: string) | UnparseableArgument(arg: string)

  /** A date recogniser: the instant a string names, or None where the source's
      `try_parse_date` returns None or raises ValidationError. */
  type DateRecogniser = string -> Option<Instant>

  /** The field defaults of a new link: unlimited use, no expiry. */
  const Defaults: Usage := Usage(-1, None)

  /** `usage or ""`. */
  function UsageText(usage: Option<string>): string {
    if usage.Some? then usage.value else ""
  }

  /** The list comprehension's filter and map: pieces that are non-empty
      BEFORE stripping are kept, and kept stripped. */
  function Kept(pieces: seq<string>): seq<string> {
    if pieces == [] then []
    else (if pieces[0] != "" then [Strip(pieces[0])] else []) + Kept(pieces[1..])
  }

  /** The arguments the filter goes on to read. */
  function Arguments(usage: Option<string>): seq<string> {
    Kept(Split(UsageText(usage), ','))
  }

  /** An argument the loop accepts: an integer, or else a date. */
  predicate Recognised(arg: string, parseDate: DateRecogniser) {
    ParseInt(arg).Some? || parseDate(arg).Some?
  }

  /** One turn of the loop: an integer sets the use limit, otherwise a date
      sets the expiry, otherwise the argument is refused. */
  function ApplyArgument(u: Usage, arg: string, parseDate: DateRecogniser): (r: Result<Usage, UsageError>)
    ensures r.Success? <==> Recognised(arg, parseDate)
    ensures r.Failure? ==> r.error == UnparseableArgument(arg)
    ensures r.Success? ==> r.value.maxUses == u.maxUses || r.value.expiresAt == u.expiresAt
  {
    match ParseInt(arg)
    case Some(n) => Success(u.(maxUses := n))
    case None =>
      match parseDate(arg)
      case Some(t) => Success(u.(expiresAt := Some(t)))
      case None => Failure(UnparseableArgument(arg))
  }

  /** The loop: the arguments applied in order, stopping at the first one
      refused. */
  function ApplyArguments(u: Usage, args: seq<string>, parseDate: DateRecogniser): (r: Result<Usage, UsageError>)
    ensures r.Failure? ==> r.error.UnparseableArgument? && r.error.arg in args
    decreases |args|
  {
    if args == [] then Success(u)
    else
      match ApplyArgument(u, args[0], parseDate)
      case Success(u') => ApplyArguments(u', args[1..], parseDate)
      case Failure(e) => Failure(e)
  }

  /** One turn of the loop, at position `i` of the argument list. */
  lemma ApplyArgumentsStep(u: Usage, args: seq<string>, i: nat, parseDate: DateRecogniser)
    requires i < |args|
    ensures ApplyArguments(u, args[i..], parseDate) ==
              match ApplyArgument(u, args[i], parseDate)
              case Success(u') => ApplyArguments(u', args[i + 1..], parseDate)
              case Failure(e) => Failure(e)
  {
    assert args[i..][0] == args[i] && args[i..][1..] == args[i + 1..];
  }

  /** The loop over one argument. */
  lemma ApplyOne(u: Usage, a: string, parseDate: DateRecogniser)
    ensures ApplyArguments(u, [a], parseDate) == ApplyArgument(u, a, parseDate)
  {
    assert [a][1..] == [];
  }

  /** The loop over two arguments. */
  lemma ApplyTwo(u: Usage, a: string, b: string, parseDate: DateRecogniser)
    ensures ApplyArguments(u, [a, b], parseDate) ==
              match ApplyArgument(u, a, parseDate)
              case Success(u') => ApplyArgument(u', b, parseDate)
              case Failure(e) => Failure(e)
  {
    assert [a, b][1..] == [b];
    forall u' ensures ApplyArguments(u', [b], parseDate) == ApplyArgument(u', b, parseDate) {
      ApplyOne(u', b, parseDate);
    }
  }

  /** What the filter makes of its usage argument, before anything is saved. */
  function ParseUsage(usage: Option<string>, parseDate: DateRecogniser): (r: Result<Usage, UsageError>)
    ensures usage == None || usage == Some("") ==> r == Success(Defaults)
  {
    var args := Arguments(usage);
    if |args| >= 3 then Failure(TooManyArguments(UsageText(usage)))
    else ApplyArguments(Defaults, args, parseDate)
  }

  /** The filter's loop: reads each argument, in order, into the unsaved
      link `g`, an integer into its use limit and otherwise a date into its
      expiry, and stops at the first argument that is neither, reporting it.
      The fields end as the specification of the loop says they do. */
  method ReadArguments(g: GuestUrl, args: seq<string>, parseDate: DateRecogniser)
    returns (refused: Option<UsageError>)
    modifies g`maxUses, g`expiresAt
    ensures ApplyArguments(old(Usage(g.maxUses, g.expiresAt)), args, parseDate) ==
              if refused.None? then Success(Usage(g.maxUses, g.expiresAt)) else Failure(refused.value)
  {
    ghost var expected := ApplyArguments(Usage(g.maxUses, g.expiresAt), args, parseDate);
    var i := 0;
    while i < |args|
      invariant 0 <= i <= |args|
      invariant ApplyArguments(Usage(g.maxUses, g.expiresAt), args[i..], parseDate) == expected
    {
      var arg := args[i];
      ApplyArgumentsStep(Usage(g.maxUses, g.expiresAt), args, i, parseDate);
      var n := ParseInt(arg);
      if n.Some? {
        g.maxUses := n.value;
        i := i + 1;
        continue;
      }
      var expiresAt := parseDate(arg);
      if expiresAt.Some? {
        g.expiresAt := expiresAt;
        i := i + 1;
        continue;
      }
      return Some(UnparseableArgument(arg));
    }
    return None;
  }

  /** The `guest_url` filter: reads the usage argument into a new, unsaved
      link and saves it (at clock reading `now`) only once every argument has
      been read. On a refusal no link is returned and nothing is saved. The
      source returns the link's reversed URL; this returns the link. `built`
      is the link the filter made, if it got as far as making one: none when
      there are too many arguments, an unsaved one when an argument is
      refused. */
  method GuestUrlFilter(sourceUrl: string, usage: Option<string>, parseDate: DateRecogniser, now: Instant)
    returns (r: Result<GuestUrl, UsageError>, ghost built: Option<GuestUrl>)
    ensures r.Failure? ==> ParseUsage(usage, parseDate) == Failure(r.error)
    ensures r.Success? ==> ParseUsage(usage, parseDate) == Success(Usage(r.value.maxUses, r.value.expiresAt))
    ensures r.Success? ==>
              fresh(r.value) && r.value.sourceUrl == sourceUrl && r.value.usedToDate == 0 &&
              r.value.createdAt == Some(now) && r.value.lastUpdatedAt == Some(now) && r.value.saveCount == 1
    ensures r.Success? ==> built == Some(r.value)
    ensures r.Failure? && r.error.TooManyArguments? ==> built == None
    ensures r.Failure? && r.error.UnparseableArgument? ==>
              built.Some? && fresh(built.value) && built.value.sourceUrl == sourceUrl &&
              built.value.saveCount == 0 && built.value.createdAt == None && built.value.lastUpdatedAt == None
  {
    var args := Arguments(usage);
    if |args| >= 3 {
      return Failure(TooManyArguments(UsageText(usage))), None;
    }
    var g := CreateGuestUrl(now, sourceUrl, save := false);
    built := Some(g);
    var refused := ReadArguments(g, args, parseDate);
    if refused.Some? {
      return Failure(refused.value), built;
    }
    g.Save(now);
    r := Success(g);
  }

  // -----------------------------------------------------------------------
  // Splitting and counting the arguments

  /** For a usage argument written as pieces joined by commas, the filter
      reads exactly the non-empty pieces, stripped. */
  lemma ArgumentsOfJoin(pieces: seq<string>)
    requires |pieces| >= 1
    requires forall k :: 0 <= k < |pieces| ==> ',' !in pieces[k]
    ensures Arguments(Some(Join(pieces, ','))) == Kept(pieces)
  {
    SplitJoin(pieces, ',');
  }

  /** A single piece is read as one argument, stripped. */
  lemma ArgumentsOfPiece(s: string)
    requires s != "" && ',' !in s
    ensures Arguments(Some(s)) == [Strip(s)]
  {
    assert Join([s], ',') == s;
    ArgumentsOfJoin([s]);
    assert [s][1..] == [];
    assert Kept([s]) == [Strip(s)];
  }

  /** Two pieces are read as two arguments, in order, stripped. */
  lemma ArgumentsOfPair(s1: string, s2: string)
    requires s1 != "" && ',' !in s1 && s2 != "" && ',' !in s2
    ensures Arguments(Some(s1 + "," + s2)) == [Strip(s1), Strip(s2)]
  {
    assert Join([s1, s2], ',') == s1 + "," + s2;
    ArgumentsOfJoin([s1, s2]);
    assert [s1, s2][1..] == [s2];
    assert [s2][1..] == [];
    assert Kept([s2]) == [Strip(s2)];
    assert Kept([s1, s2]) == [Strip(s1), Strip(s2)];
  }

  lemma ArgumentsOfStrippedPair(s1: string, s2: string, a1: string, a2: string)
    requires s1 != "" && ',' !in s1 && s2 != "" && ',' !in s2
    requires Strip(s1) == a1 && Strip(s2) == a2
    ensures Arguments(Some(s1 + "," + s2)) == [a1, a2]
  {
    ArgumentsOfPair(s1, s2);
  }

  /** Two pieces with an empty piece between them are read as two
      arguments: the empty piece is dropped. */
  lemma ArgumentsOfGappedPair(s1: string, s2: string)
    requires s1 != "" && ',' !in s1 && s2 != "" && ',' !in s2
    ensures Arguments(Some(s1 + ",," + s2)) == [Strip(s1), Strip(s2)]
  {
    var pieces := [s1, "", s2];
    assert pieces[1..] == ["", s2] && pieces[1..][1..] == [s2] && pieces[1..][1..][1..] == [];
    assert Join([s2], ',') == s2;
    assert Join(["", s2], ',') == "," + s2;
    assert Join(pieces, ',') == s1 + ",," + s2;
    ArgumentsOfJoin(pieces);
    assert Kept([s2]) == [Strip(s2)];
    assert Kept(["", s2]) == [Strip(s2)];
  }

  /** Empty pieces are dropped and do not count towards the limit of two. */
  lemma EmptyPiecesDropped()
    ensures Arguments(Some("1,,2")) == ["1", "2"]
  {
    assert "1" + ",," + "2" == "1,,2";
    StripUnchanged("1");
    StripUnchanged("2");
    ArgumentsOfGappedPair("1", "2");
  }

  /** Three arguments are refused before any of them is read. */
  lemma ThreeArgumentsRefused(parseDate: DateRecogniser)
    ensures ParseUsage(Some("1,2,3"), parseDate) == Failure(TooManyArguments("1,2,3"))
  {
    var pieces := ["1", "2", "3"];
    assert pieces[1..] == ["2", "3"] && pieces[1..][1..] == ["3"] && pieces[1..][1..][1..] == [];
    assert Join(["3"], ',') == "3";
    assert Join(["2", "3"], ',') == "2,3";
    assert Join(pieces, ',') == "1,2,3";
    ArgumentsOfJoin(pieces);
    assert |Kept(["3"])| == 1 && |Kept(["2", "3"])| == 2 && |Kept(pieces)| == 3;
  }

  /** Emptiness is tested before stripping: a blank piece survives as the
      empty argument, which is then refused. */
  lemma BlankPieceRefused(parseDate: DateRecogniser)
    requires parseDate("") == None
    ensures Arguments(Some(" ")) == [""]
    ensures ParseUsage(Some(" "), parseDate) == Failure(UnparseableArgument(""))
  {
    var rest := Split(" "[1..], ',');
    assert " "[1..] == "" && rest == [""] && rest[1..] == [];
    assert [' '] + rest[0] == " ";
    assert Split(" ", ',') == [" "];
    assert StripLeft(" ") == "";
    assert Strip(" ") == "";
    assert [" "][1..] == [];
    assert Kept([" "]) == [""];
    ApplyOne(Defaults, "", parseDate);
  }

  // -----------------------------------------------------------------------
  // Reading the arguments

  /** The loop succeeds exactly when every argument is an integer or a
      date. */
  lemma {:induction false} ApplyArgumentsSucceedsIff(u: Usage, args: seq<string>, parseDate: DateRecogniser)
    ensures ApplyArguments(u, args, parseDate).Success? <==>
              forall k :: 0 <= k < |args| ==> Recognised(args[k], parseDate)
    decreases |args|
  {
    if args != [] {
      match ApplyArgument(u, args[0], parseDate)
      case Success(u') =>
        ApplyArgumentsSucceedsIff(u', args[1..], parseDate);
        if ApplyArguments(u, args, parseDate).Success? {
          forall k | 0 < k < |args| ensures Recognised(args[k], parseDate) {
            assert args[k] == args[1..][k - 1];
          }
        } else {
          var k :| 0 <= k < |args[1..]| && !Recognised(args[1..][k], parseDate);
          assert args[1..][k] == args[k + 1];
        }
      case Failure(e) =>
    }
  }

  /** A refusing loop names the first argument that is neither an integer
      nor a date. */
  lemma {:induction false} ApplyArgumentsRefusesFirst(u: Usage, args: seq<string>, parseDate: DateRecogniser)
    ensures ApplyArguments(u, args, parseDate).Failure? ==>
              exists j :: 0 <= j < |args| && ApplyArguments(u, args, parseDate) == Failure(UnparseableArgument(args[j])) &&
                !Recognised(args[j], parseDate) &&
                forall k :: 0 <= k < j ==> Recognised(args[k], parseDate)
    decreases |args|
  {
    if args != [] {
      match ApplyArgument(u, args[0], parseDate)
      case Success(u') =>
        ApplyArgumentsRefusesFirst(u', args[1..], parseDate);
        if ApplyArguments(u, args, parseDate).Failure? {
          var j :| 0 <= j < |args[1..]| && ApplyArguments(u', args[1..], parseDate) == Failure(UnparseableArgument(args[1..][j])) &&
                   !Recognised(args[1..][j], parseDate) &&
                   forall k :: 0 <= k < j ==> Recognised(args[1..][k], parseDate);
          forall k | 0 < k < j + 1 ensures Recognised(args[k], parseDate) {
            assert args[k] == args[1..][k - 1];
          }
          assert args[1..][j] == args[j + 1];
        }
      case Failure(e) =>
        assert ApplyArguments(u, args, parseDate) == Failure(UnparseableArgument(args[0]));
    }
  }

  /** The filter accepts a usage argument exactly when it has at most two
      non-empty pieces and each is an integer or a date. */
  lemma ParseUsageSucceedsIff(usage: Option<string>, parseDate: DateRecogniser)
    ensures ParseUsage(usage, parseDate).Success? <==>
              |Arguments(usage)| < 3 &&
              forall k :: 0 <= k < |Arguments(usage)| ==> Recognised(Arguments(usage)[k], parseDate)
  {
    ApplyArgumentsSucceedsIff(Defaults, Arguments(usage), parseDate);
  }

  /** A single piece: an integer sets the use limit whatever the date
      recogniser would say of it (so "2014" is a use count, not a year); a
      date that is not an integer sets the expiry and leaves the limit at -1;
      anything else is refused, naming the stripped piece. */
  lemma SinglePiece(s: string, parseDate: DateRecogniser)
    requires s != "" && ',' !in s
    ensures ParseInt(Strip(s)).Some? ==>
              ParseUsage(Some(s), parseDate) == Success(Usage(ParseInt(Strip(s)).value, None))
    ensures ParseInt(Strip(s)).None? && parseDate(Strip(s)).Some? ==>
              ParseUsage(Some(s), parseDate) == Success(Usage(-1, parseDate(Strip(s))))
    ensures !Recognised(Strip(s), parseDate) ==>
              ParseUsage(Some(s), parseDate) == Failure(UnparseableArgument(Strip(s)))
  {
    ArgumentsOfPiece(s);
    ApplyOne(Defaults, Strip(s), parseDate);
  }

  /** Two pieces: their arguments are applied in order. */
  lemma TwoPieces(s1: string, s2: string, parseDate: DateRecogniser)
    requires s1 != "" && ',' !in s1 && s2 != "" && ',' !in s2
    ensures ParseUsage(Some(s1 + "," + s2), parseDate) ==
              ApplyArguments(Defaults, [Strip(s1), Strip(s2)], parseDate)
  {
    ArgumentsOfPair(s1, s2);
  }

  /** One integer and one date give the same link in either order. */
  lemma IntegerAndDateCommute(s1: string, s2: string, parseDate: DateRecogniser)
    requires s1 != "" && ',' !in s1 && s2 != "" && ',' !in s2
    requires ParseInt(Strip(s1)).Some?
    requires ParseInt(Strip(s2)).None? && parseDate(Strip(s2)).Some?
    ensures ParseUsage(Some(s1 + "," + s2), parseDate) == ParseUsage(Some(s2 + "," + s1), parseDate)
    ensures ParseUsage(Some(s1 + "," + s2), parseDate) ==
              Success(Usage(ParseInt(Strip(s1)).value, parseDate(Strip(s2))))
  {
    TwoPieces(s1, s2, parseDate);
    TwoPieces(s2, s1, parseDate);
    ApplyTwo(Defaults, Strip(s1), Strip(s2), parseDate);
    ApplyTwo(Defaults, Strip(s2), Strip(s1), parseDate);
  }

  /** Two integers: the later one is the use limit. */
  lemma LastIntegerWins(s1: string, s2: string, parseDate: DateRecogniser)
    requires s1 != "" && ',' !in s1 && s2 != "" && ',' !in s2
    requires ParseInt(Strip(s1)).Some? && ParseInt(Strip(s2)).Some?
    ensures ParseUsage(Some(s1 + "," + s2), parseDate) == Success(Usage(ParseInt(Strip(s2)).value, None))
  {
    TwoPieces(s1, s2, parseDate);
    ApplyTwo(Defaults, Strip(s1), Strip(s2), parseDate);
  }

  /** Two dates: the later one is the expiry. */
  lemma LastDateWins(s1: string, s2: string, parseDate: DateRecogniser)
    requires s1 != "" && ',' !in s1 && s2 != "" && ',' !in s2
    requires ParseInt(Strip(s1)).None? && parseDate(Strip(s1)).Some?
    requires ParseInt(Strip(s2)).None? && parseDate(Strip(s2)).Some?
    ensures ParseUsage(Some(s1 + "," + s2), parseDate) == Success(Usage(-1, parseDate(Strip(s2))))
  {
    TwoPieces(s1, s2, parseDate);
    ApplyTwo(Defaults, Strip(s1), Strip(s2), parseDate);
  }

  // -----------------------------------------------------------------------
  // The filter's scenarios, with the UTC date recogniser of the test settings

  /** Dates read in UTC, the default time zone of the test settings. */
  function UtcDates(s: string): Option<Instant> {
    IsoDates.ParseIsoDate(s, 0)
  }

  /** 2014-07-12T00:00Z. */
  const July12th2014: Instant := 16263 * MicrosPerDay

  /** The date fields of a string that starts with "2014-07-12". */
  lemma July12th2014Fields(s: string)
    requires |s| >= 10 && s[..10] == "2014-07-12"
    ensures IsoDates.DigitsAt(s, 0, 4) && IsoDates.DigitsAt(s, 5, 2) && IsoDates.DigitsAt(s, 8, 2)
    ensures IsoDates.Field(s, 0, 4) == 2014 && IsoDates.Field(s, 5, 2) == 7 && IsoDates.Field(s, 8, 2) == 12
  {
    assert s[0..4] == "2014" && s[5..7] == "07" && s[8..10] == "12" by {
      assert s[0..4] == s[..10][0..4] && s[5..7] == s[..10][5..7] && s[8..10] == s[..10][8..10];
    }
    Digits4(s[0..4]);
    Digits2(s[5..7]);
    Digits2(s[8..10]);
  }

  /** 2014-07-12 is midnight UTC at the start of that day. */
  lemma July12th2014Date()
    ensures UtcDates("2014-07-12") == Some(July12th2014)
  {
    var d := "2014-07-12";
    assert d[..10] == d;
    July12th2014Fields(d);
    IsoDates.DaysFromCivilOfJuly12th2014();
  }

  /** 2014-07-12 09:00 is nine hours later. */
  lemma July12th2014NineAm()
    ensures UtcDates("2014-07-12 09:00") == Some(July12th2014 + 9 * 60 * MicrosPerMinute)
  {
    var t := "2014-07-12 09:00";
    assert t[..10] == "2014-07-12";
    July12th2014Fields(t);
    assert t[11..13] == "09" && t[14..16] == "00";
    Digits2(t[11..13]);
    Digits2(t[14..16]);
    IsoDates.DaysFromCivilOfJuly12th2014();
  }

  lemma SmallIntegers()
    ensures ParseInt("1") == Some(1) && ParseInt("2") == Some(2) && ParseInt("100") == Some(100)
  {
    StripUnchanged("1");
    StripUnchanged("2");
    StripUnchanged("100");
    assert DigitsValue("1") == 1 by { assert "1"[..0] == ""; }
    assert DigitsValue("2") == 2 by { assert "2"[..0] == ""; }
    Digits3("100");
  }

  /** No argument and the empty argument leave the defaults. */
  lemma NoUsageScenarios()
    ensures ParseUsage(None, UtcDates) == Success(Usage(-1, None))
    ensures ParseUsage(Some(""), UtcDates) == Success(Usage(-1, None))
  {
  }

  /** "1" is a single use. */
  lemma SingleUseScenario()
    ensures ParseUsage(Some("1"), UtcDates) == Success(Usage(1, None))
  {
    StripUnchanged("1");
    ArgumentsOfPiece("1");
    SmallIntegers();
    ApplyOne(Defaults, "1", UtcDates);
  }

  /** "100" is a hundred uses. */
  lemma HundredUsesScenario()
    ensures ParseUsage(Some("100"), UtcDates) == Success(Usage(100, None))
  {
    StripUnchanged("100");
    ArgumentsOfPiece("100");
    SmallIntegers();
    ApplyOne(Defaults, "100", UtcDates);
  }

  /** Integers are tried first: "2014" is 2014 uses, whatever the date
      recogniser would make of it. */
  lemma YearLikeIntegerScenario(parseDate: DateRecogniser)
    ensures ParseUsage(Some("2014"), parseDate) == Success(Usage(2014, None))
  {
    StripUnchanged("2014");
    ArgumentsOfPiece("2014");
    YearLikeInteger();
    ApplyOne(Defaults, "2014", parseDate);
  }

  lemma YearLikeInteger()
    ensures ParseInt("2014") == Some(2014)
  {
    StripUnchanged("2014");
    Digits4("2014");
  }

  /** A date alone is an expiry at midnight UTC. */
  lemma ExpiryDateScenario()
    ensures ParseUsage(Some("2014-07-12"), UtcDates) == Success(Usage(-1, Some(July12th2014)))
  {
    StripUnchanged("2014-07-12");
    ArgumentsOfPiece("2014-07-12");
    July12th2014Date();
    IsoDates.DatesAreNotIntegers("2014-07-12", 0);
    ApplyOne(Defaults, "2014-07-12", UtcDates);
  }

  /** A date and a time of day is an expiry at that minute. */
  lemma ExpiryTimeScenario()
    ensures ParseUsage(Some("2014-07-12 09:00"), UtcDates) == Success(Usage(-1, Some(July12th2014 + 9 * 60 * MicrosPerMinute)))
  {
    StripUnchanged("2014-07-12 09:00");
    ArgumentsOfPiece("2014-07-12 09:00");
    July12th2014NineAm();
    IsoDates.DatesAreNotIntegers("2014-07-12 09:00", 0);
    ApplyOne(Defaults, "2014-07-12 09:00", UtcDates);
  }

  /** "1, 2014-07-12" is read as "1" and "2014-07-12". */
  lemma UsesThenExpiryArguments()
    ensures Arguments(Some("1, 2014-07-12")) == ["1", "2014-07-12"]
  {
    assert "1" + "," + " 2014-07-12" == "1, 2014-07-12";
    StripUnchanged("1");
    StripOneLeadingSpace("2014-07-12");
    ArgumentsOfStrippedPair("1", " 2014-07-12", "1", "2014-07-12");
  }

  /** "2014-07-12, 1" is read as "2014-07-12" and "1". */
  lemma ExpiryThenUsesArguments()
    ensures Arguments(Some("2014-07-12, 1")) == ["2014-07-12", "1"]
  {
    assert "2014-07-12" + "," + " 1" == "2014-07-12, 1";
    StripUnchanged("2014-07-12");
    StripOneLeadingSpace("1");
    ArgumentsOfStrippedPair("2014-07-12", " 1", "2014-07-12", "1");
  }

  /** A use limit, then an expiry. */
  lemma UsesThenExpiryScenario()
    ensures ParseUsage(Some("1, 2014-07-12"), UtcDates) == Success(Usage(1, Some(July12th2014)))
  {
    UsesThenExpiryArguments();
    DateWithUsesApplied();
  }

  /** An expiry, then a use limit. */
  lemma ExpiryThenUsesScenario()
    ensures ParseUsage(Some("2014-07-12, 1"), UtcDates) == Success(Usage(1, Some(July12th2014)))
  {
    ExpiryThenUsesArguments();
    DateWithUsesApplied();
  }

  lemma DateWithUsesApplied()
    ensures ApplyArguments(Defaults, ["1", "2014-07-12"], UtcDates) == Success(Usage(1, Some(July12th2014)))
    ensures ApplyArguments(Defaults, ["2014-07-12", "1"], UtcDates) == Success(Usage(1, Some(July12th2014)))
  {
    SmallIntegers();
    July12th2014Date();
    IsoDates.DatesAreNotIntegers("2014-07-12", 0);
    ApplyTwo(Defaults, "1", "2014-07-12", UtcDates);
    ApplyTwo(Defaults, "2014-07-12", "1", UtcDates);
  }

  /** "1,,2" is read as two arguments, and the second use count wins. */
  lemma EmptyPieceScenario()
    ensures ParseUsage(Some("1,,2"), UtcDates) == Success(Usage(2, None))
  {
    SmallIntegers();
    EmptyPiecesDropped();
    ApplyTwo(Defaults, "1", "2", UtcDates);
  }

  /** Three pieces are too many. */
  lemma TooManyScenario()
    ensures ParseUsage(Some("1,2,3"), UtcDates) == Failure(TooManyArguments("1,2,3"))
  {
    ThreeArgumentsRefused(UtcDates);
  }

  /** A word is refused. */
  lemma WordScenario()
    ensures ParseUsage(Some("foobar"), UtcDates) == Failure(UnparseableArgument("foobar"))
  {
    StripUnchanged("foobar");
    assert !IsDigit("foobar"[0]);
    assert ParseInt("foobar") == None;
    assert UtcDates("foobar") == None;
    SinglePiece("foobar", UtcDates);
  }

  /** An interval, which the filter does not yet understand, is refused. */
  lemma IntervalScenario()
    ensures ParseUsage(Some("1 day"), UtcDates) == Failure(UnparseableArgument("1 day"))
  {
    StripUnchanged("1 day");
    assert !IsDigit("1 day"[1]);
    assert ParseInt("1 day") == None;
    assert UtcDates("1 day") == None;
    SinglePiece("1 day", UtcDates);
  }
}
