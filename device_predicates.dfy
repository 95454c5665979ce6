/** The three string predicates the snapshot derives its booleans from
    (RNDeviceInfoModule.IsEmulator, IsTablet and is24Hour). */
module DevicePredicates {
  import opened Text

  /** The model name marks a virtual machine: it contains "virtual" in any
      letter case. */
  function IsEmulator(model: string): (r: bool)
    ensures r <==> exists i :: MatchesIgnoringCaseAt(model, "virtual", i)
  {
    ContainsIgnoringCase(model, "virtual")
  }

  /** Not a tablet test at all: true for every operating-system name except
      those containing "windowsphone" in any letter case. */
  function IsTablet(os: string): (r: bool)
    ensures r <==> !exists i :: MatchesIgnoringCaseAt(os, "windowsphone", i)
  {
    !ContainsIgnoringCase(os, "windowsphone")
  }

  /** A short-time pattern denotes a 24-hour clock when it contains the
      upper-case hour token 'H'; the test is case-sensitive. */
  function Is24Hour(shortTimePattern: string): (r: bool)
    ensures r <==> exists i :: 0 <= i < |shortTimePattern| && shortTimePattern[i] == 'H'
  {
    var r := Contains(shortTimePattern, "H");
    assert r ==> exists i :: 0 <= i < |shortTimePattern| && shortTimePattern[i] == 'H' by {
      if r {
        var i :| OccursAt(shortTimePattern, "H", i);
        assert shortTimePattern[i..i + 1][0] == shortTimePattern[i];
      }
    }
    assert (exists i :: 0 <= i < |shortTimePattern| && shortTimePattern[i] == 'H') ==> r by {
      if i :| 0 <= i < |shortTimePattern| && shortTimePattern[i] == 'H' {
        assert shortTimePattern[i..i + 1] == "H";
        assert OccursAt(shortTimePattern, "H", i);
      }
    }
    r
  }

  /** A string without any upper-case 'H' never yields a 24-hour clock, so a
      12-hour pattern written with 'h' only is reported as false. */
  lemma LowerCaseHourIsNot24Hour(shortTimePattern: string)
    requires forall i :: 0 <= i < |shortTimePattern| ==> shortTimePattern[i] != 'H'
    ensures !Is24Hour(shortTimePattern)
  {
  }

  /** Letter case of the model name does not change the emulator test. */
  lemma IsEmulatorIgnoresCase(a: string, b: string)
    requires ToLower(a) == ToLower(b)
    ensures IsEmulator(a) == IsEmulator(b)
  {
    if IsEmulator(a) {
      var i :| MatchesIgnoringCaseAt(a, "virtual", i);
      LowerOccursIffMatchesIgnoringCase(a, "virtual", i);
      LowerOccursIffMatchesIgnoringCase(b, "virtual", i);
    }
    if IsEmulator(b) {
      var i :| MatchesIgnoringCaseAt(b, "virtual", i);
      LowerOccursIffMatchesIgnoringCase(a, "virtual", i);
      LowerOccursIffMatchesIgnoringCase(b, "virtual", i);
    }
  }

  /** A string none of whose characters folds to the first letter of `word`
      has no case-insensitive occurrence of `word`. */
  lemma NoMatchWithoutFirstLetter(s: string, word: string)
    requires |word| > 0
    requires forall j :: 0 <= j < |s| ==> LowerChar(s[j]) != word[0]
    ensures !exists i :: MatchesIgnoringCaseAt(s, word, i)
  {
    if i :| MatchesIgnoringCaseAt(s, word, i) {
      assert LowerChar(s[i + 0]) == word[0];
    }
  }

  lemma EmulatorExamples()
    ensures IsEmulator("Virtual Machine")
    ensures IsEmulator("Microsoft VIRTUAL Machine")
    ensures !IsEmulator("Surface Pro")
  {
    assert MatchesIgnoringCaseAt("Virtual Machine", "virtual", 0);
    assert MatchesIgnoringCaseAt("Microsoft VIRTUAL Machine", "virtual", 10);
    NoMatchWithoutFirstLetter("Surface Pro", "virtual");
  }

  lemma TabletExamples()
    ensures !IsTablet("WindowsPhone 10")
    ensures !IsTablet("windowsphone")
    ensures IsTablet("Windows 10")
  {
    assert MatchesIgnoringCaseAt("WindowsPhone 10", "windowsphone", 0);
    assert MatchesIgnoringCaseAt("windowsphone", "windowsphone", 0);
  }

  lemma Is24HourExamples()
    ensures Is24Hour("HH:mm")
    ensures !Is24Hour("h:mm tt")
  {
    assert "HH:mm"[0] == 'H';
  }
}
