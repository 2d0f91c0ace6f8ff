/**
 Concrete runs of the lister against small kernel states, worked out
 through the general model.
 */
module Scenarios {
  import opened BpfKernel
  import opened Render
  import opened ListMaps

  const Counters := MapInfo(1, "counters", 0)
  const Unnamed := MapInfo(2, "", 1)
  const Exotic := MapInfo(99, "x", 4)

  /** Three live maps, none failing; type 99 has no name in the type-name table. */
  const ThreeMaps := Kernel(map[3 := Live(Counters), 7 := Live(Unnamed), 9 := Live(Exotic)], map[], map[], map[])

  const KnownTypes: TypeNames := map[1 := "HASH", 2 := "ARRAY"]

  /** next-id walks the three ids in order, then reports the end of the table. */
  lemma ThreeMapsCursor()
    ensures NextId(ThreeMaps, 0) == Ok(3) && NextId(ThreeMaps, 3) == Ok(7)
    ensures NextId(ThreeMaps, 7) == Ok(9) && NextId(ThreeMaps, 9) == Err(ENOENT)
  {
    var ids := ThreeMaps.table.Keys;
    assert Above(ids, 0) == {3, 7, 9};
    assert Above(ids, 3) == {7, 9};
    assert Above(ids, 7) == {9};
    assert Above(ids, 9) == {};
  }

  /** The lister reports the three maps in id order with their own info records, and exits with EXIT_SUCCESS. */
  lemma ThreeMapsReports()
    ensures Run(ThreeMaps, 0) ==
              Trace([NextIdCall(0), GetFdCall(3), GetInfoCall(Fd(3)),
                     NextIdCall(3), GetFdCall(7), GetInfoCall(Fd(7)),
                     NextIdCall(7), GetFdCall(9), GetInfoCall(Fd(9)),
                     NextIdCall(9)],
                    [Report(3, Counters), Report(7, Unnamed), Report(9, Exotic)],
                    ExitSuccess)
  {
    var k := ThreeMaps;
    ThreeMapsCursor();
    RunStopsAtNextId(k, 9, ENOENT);
    RunReports(k, 7, 9, Fd(9), Exotic);
    RunReports(k, 3, 7, Fd(7), Unnamed);
    RunReports(k, 0, 3, Fd(3), Counters);
  }

  /**
   The three lines, as the four printf calls put them together:
   `3: HASH  name: counters  flags 0x0`, `7: ARRAY  name:   flags 0x1`
   (an empty name prints as nothing) and `9: type 99  name: x  flags 0x4`
   (type 99 has no name).
   */
  lemma ThreeMapsListing()
    ensures Run(ThreeMaps, 0).exit == ExitSuccess
    ensures Lines(Run(ThreeMaps, 0).printed, KnownTypes) ==
              [ "3: HASH  name: counters  flags 0x0",
                "7: ARRAY  name:   flags 0x1",
                "9: type 99  name: x  flags 0x4" ]
  {
    ThreeMapsReports();
    CountersLine();
    UnnamedLine();
    ExoticLine();
  }

  lemma CountersLine()
    ensures FormatLine(3, Counters, KnownTypes) == "3: HASH  name: counters  flags 0x0"
  {
    assert PrintfD(3) == "3" && Hex(0) == "0";
    CountersText();
  }

  lemma UnnamedLine()
    ensures FormatLine(7, Unnamed, KnownTypes) == "7: ARRAY  name:   flags 0x1"
  {
    assert PrintfD(7) == "7" && Hex(1) == "1";
    UnnamedText();
  }

  lemma ExoticLine()
    ensures FormatLine(9, Exotic, KnownTypes) == "9: type 99  name: x  flags 0x4"
  {
    assert PrintfD(9) == "9" && Hex(4) == "4";
    ExoticText();
    assert Decimal(99) == "99" by {
      assert Digits(99, 10) == Digits(9, 10) + [DIGITS[9]];
    }
  }

  /** The characters `Line` puts together from these four parts. */
  lemma CountersText()
    ensures Line("3", "HASH", "counters", "0") == "3: HASH  name: counters  flags 0x0"
  {
  }

  /** The characters `Line` puts together from these four parts. */
  lemma UnnamedText()
    ensures Line("7", "ARRAY", "", "1") == "7: ARRAY  name:   flags 0x1"
  {
  }

  /** The characters `Line` puts together from these four parts. */
  lemma ExoticText()
    ensures Line("9", "type 99", "x", "4") == "9: type 99  name: x  flags 0x4"
  {
  }

  /**
   Map 2 was deleted after it was enumerated and fetching map 5's info
   fails: the lister skips 2, stops at 5 after closing its descriptor,
   prints nothing, and still exits with EXIT_SUCCESS.
   */
  const GoneThenFailing := Kernel(map[2 := Gone, 5 := Live(Counters)], map[], map[], map[5 := OtherErrno])

  lemma GoneThenFailingRun()
    ensures Run(GoneThenFailing, 0) ==
              Trace([NextIdCall(0), GetFdCall(2), NextIdCall(2), GetFdCall(5), GetInfoCall(Fd(5)), CloseCall(Fd(5))],
                    [], ExitSuccess)
  {
    var k := GoneThenFailing;
    assert NextId(k, 0) == Ok(2) by {
      assert Above(k.table.Keys, 0) == {2, 5};
    }
    assert NextId(k, 2) == Ok(5) by {
      assert Above(k.table.Keys, 2) == {5};
    }
    RunStopsAtInfo(k, 2, 5, Fd(5), OtherErrno);
    RunSkips(k, 0, 2);
  }

  /** The fd lookup for map 4 is denied: the lister exits with EXIT_FAILURE before printing map 6. */
  const DeniedSecond := Kernel(map[1 := Live(Counters), 4 := Live(Unnamed), 6 := Live(Exotic)], map[], map[4 := EPERM], map[])

  lemma DeniedSecondRun()
    ensures Run(DeniedSecond, 0).exit == ExitFailure
    ensures Run(DeniedSecond, 0).printed == [Report(1, Counters)]
  {
    var k := DeniedSecond;
    assert NextId(k, 0) == Ok(1) by {
      assert Above(k.table.Keys, 0) == {1, 4, 6};
    }
    assert NextId(k, 1) == Ok(4) by {
      assert Above(k.table.Keys, 1) == {4, 6};
    }
    RunStopsAtFd(k, 1, 4, EPERM);
    RunReports(k, 0, 1, Fd(1), Counters);
  }
}
