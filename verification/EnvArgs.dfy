/** The environment variables that the operator prints and the monitor parses. */
module EnvArgs {
  import opened Options
  import opened Text

  // ----- lists of names -----

  function TrimAll(parts: seq<string>): seq<string> {
    seq(|parts|, i requires 0 <= i < |parts| => TrimSpace(parts[i]))
  }

  function ParseStrings(arg: string): seq<string> {
    if arg == "" then [] else TrimAll(Split(arg, ','))
  }

  /** `None` stands for a nil pointer. */
  method ParseStringsArgs(arg: Option<string>) returns (args: seq<string>)
    ensures args == if arg.None? then [] else ParseStrings(arg.value)
  {
    args := [];
    if arg.None? || arg.value == "" {
      return;
    }
    var parts := Split(arg.value, ',');
    for i := 0 to |parts|
      invariant args == TrimAll(parts[..i])
    {
      args := args + [TrimSpace(parts[i])];
      assert TrimAll(parts[..i + 1]) == TrimAll(parts[..i]) + [TrimSpace(parts[i])];
    }
    assert parts[..|parts|] == parts;
  }

  /** A list of names survives printing and parsing exactly if every name is trimmed and free of
      commas and the list is not one empty name. */
  lemma {:induction false} NamesRoundTrip(names: seq<string>)
    ensures ParseStrings(Join(names, ',')) == names <==>
            (forall i :: 0 <= i < |names| ==> ',' !in names[i] && Trimmed(names[i])) && names != [""]
  {
    var arg := Join(names, ',');
    if ParseStrings(arg) == names {
      if arg != "" {
        SplitFree(arg, ',');
      }
    }
    if (forall i :: 0 <= i < |names| ==> ',' !in names[i] && Trimmed(names[i])) && names != [""] {
      if names != [] {
        SplitJoin(names, ',');
        assert arg != "";
        assert TrimAll(names) == names;
      }
    }
  }

  /** White space around the names does no harm: they are recovered all the same. */
  lemma {:induction false} PaddedNames(names: seq<string>, left: seq<string>, right: seq<string>)
    requires names != [] && |left| == |names| && |right| == |names|
    requires forall i :: 0 <= i < |names| ==> ',' !in names[i] && Trimmed(names[i])
    requires forall i :: 0 <= i < |names| ==> AllSpace(left[i]) && AllSpace(right[i])
    requires |names| > 1 || left[0] + names[0] + right[0] != ""
    ensures var padded := seq(|names|, i requires 0 <= i < |names| => left[i] + names[i] + right[i]);
            ParseStrings(Join(padded, ',')) == names
  {
    var padded := seq(|names|, i requires 0 <= i < |names| => left[i] + names[i] + right[i]);
    forall i | 0 <= i < |names| ensures ',' !in padded[i] && TrimSpace(padded[i]) == names[i] {
      assert !IsSpace(',');
      TrimPadded(left[i], names[i], right[i]);
    }
    SplitJoin(padded, ',');
    assert TrimAll(padded) == names;
    if |names| > 1 {
      JoinCons(padded[0], padded[1..], ',');
      assert padded == [padded[0]] + padded[1..];
    }
  }

  // ----- lists of ports -----

  function ItoaAll(ports: seq<Int>): seq<string> {
    seq(|ports|, i requires 0 <= i < |ports| => Itoa(ports[i]))
  }

  function PrintPorts(ports: seq<Int>): string {
    Join(ItoaAll(ports), ' ')
  }

  lemma {:induction false} JoinSnoc(parts: seq<string>, last: string, c: char)
    requires parts != []
    ensures Join(parts + [last], c) == Join(parts, c) + [c] + last
  {
    if |parts| > 1 {
      JoinSnoc(parts[1..], last, c);
      assert (parts + [last])[1..] == parts[1..] + [last];
    } else {
      assert (parts + [last])[1..] == [last];
    }
  }

  /** One port list: a space before every port but the first. */
  method PrintList(ports: seq<Int>) returns (s: string)
    ensures s == PrintPorts(ports)
  {
    s := "";
    for i := 0 to |ports|
      invariant s == PrintPorts(ports[..i])
      invariant s == "" <==> i == 0
    {
      ItoaChars(ports[i]);
      assert ItoaAll(ports[..i + 1]) == ItoaAll(ports[..i]) + [Itoa(ports[i])];
      if i > 0 {
        JoinSnoc(ItoaAll(ports[..i]), Itoa(ports[i]), ' ');
      }
      if |s| > 0 {
        s := s + " ";
      }
      s := s + Itoa(ports[i]);
    }
    assert ports[..|ports|] == ports;
  }

  datatype Ports = Ports(tcp: seq<Int>, udp: seq<Int>)

  /** The two lists the operator prints; `None` if no unprotected ports are configured. */
  method ParsePorts(unprotected: Option<Ports>) returns (tcp: string, udp: string)
    ensures unprotected.None? ==> tcp == "" && udp == ""
    ensures unprotected.Some? ==> tcp == PrintPorts(unprotected.value.tcp) && udp == PrintPorts(unprotected.value.udp)
  {
    if unprotected.None? {
      return "", "";
    }
    tcp := PrintList(unprotected.value.tcp);
    udp := PrintList(unprotected.value.udp);
  }

  /** All numbers, or nothing if one part is no number. */
  function AtoiAll(parts: seq<string>): Option<seq<Int>> {
    if parts == [] then Some([])
    else
      var n := |parts| - 1;
      var head := AtoiAll(parts[..n]);
      var last := Atoi(parts[n]);
      if head.None? || last.None? then None else Some(head.value + [last.value])
  }

  function ParseInts(arg: string): Option<seq<Int>> {
    AtoiAll(ParseStrings(arg))
  }

  method ParseIntArgs(arg: Option<string>) returns (ports: Option<seq<Int>>)
    ensures ports == if arg.None? then Some([]) else ParseInts(arg.value)
  {
    var parts := ParseStringsArgs(arg);
    var ints: seq<Int> := [];
    for i := 0 to |parts|
      invariant AtoiAll(parts[..i]) == Some(ints)
    {
      var port := Atoi(parts[i]);
      if port.None? {
        AtoiAllFails(parts, i);
        return None;
      }
      AtoiNext(parts, i);
      ints := ints + [port.value];
    }
    assert parts[..|parts|] == parts;
    ports := Some(ints);
  }

  lemma {:induction false} AtoiNext(parts: seq<string>, i: nat)
    requires i < |parts| && AtoiAll(parts[..i]).Some? && Atoi(parts[i]).Some?
    ensures AtoiAll(parts[..i + 1]) == Some(AtoiAll(parts[..i]).value + [Atoi(parts[i]).value])
  {
    assert parts[..i + 1][..i] == parts[..i];
  }

  lemma {:induction false} AtoiAllFails(parts: seq<string>, i: nat)
    requires i < |parts| && Atoi(parts[i]).None?
    ensures AtoiAll(parts).None?
  {
    if i < |parts| - 1 {
      AtoiAllFails(parts[..|parts| - 1], i);
    }
  }

  ghost predicate WriteAll(parts: seq<string>, ints: seq<Int>) {
    |ints| == |parts| && forall i :: 0 <= i < |parts| ==> Writes(parts[i], ints[i])
  }

  /** A list of texts is accepted exactly if they write numbers in the range of `int`, and is these numbers. */
  lemma {:induction false} AtoiAllExact(parts: seq<string>, ints: seq<Int>)
    ensures AtoiAll(parts) == Some(ints) <==> WriteAll(parts, ints)
  {
    if parts != [] && ints != [] {
      var n, m := |parts| - 1, |ints| - 1;
      AtoiAllExact(parts[..n], ints[..m]);
      AtoiExact(parts[n], ints[m]);
      WriteAllSnoc(parts, ints);
      SomeSnoc(AtoiAll(parts[..n]), Atoi(parts[n]), ints);
    }
  }

  lemma {:induction false} SomeSnoc(head: Option<seq<Int>>, last: Option<Int>, ints: seq<Int>)
    requires ints != []
    ensures var m := |ints| - 1;
            head.Some? && last.Some? && head.value + [last.value] == ints <==>
            head == Some(ints[..m]) && last == Some(ints[m])
  {
    var m := |ints| - 1;
    assert ints == ints[..m] + [ints[m]];
    if head.Some? && last.Some? && head.value + [last.value] == ints {
      assert (head.value + [last.value])[..m] == head.value;
    }
  }

  lemma {:induction false} WriteAllSnoc(parts: seq<string>, ints: seq<Int>)
    requires parts != [] && ints != []
    ensures var n, m := |parts| - 1, |ints| - 1;
            WriteAll(parts, ints) <==> WriteAll(parts[..n], ints[..m]) && Writes(parts[n], ints[m])
  {
    var n, m := |parts| - 1, |ints| - 1;
    assert forall i :: 0 <= i < n ==> parts[..n][i] == parts[i];
    assert forall i :: 0 <= i < m ==> ints[..m][i] == ints[i];
  }

  /** Not empty, no white space at the ends, no comma. */
  predicate Plain(s: string) {
    s != "" && Trimmed(s) && ',' !in s
  }

  lemma {:induction false} PrintedNumber(n: int)
    ensures Plain(Itoa(n))
  {
  }

  lemma {:induction false} PrintedPair(head: string, tail: string)
    requires Plain(head) && Plain(tail)
    ensures Plain(head + [' '] + tail) && ' ' in head + [' '] + tail
  {
  }

  /** A printed list has no comma, and it has a space if there are two ports. */
  lemma {:induction false} PrintedPorts(ports: seq<Int>)
    requires ports != []
    ensures Plain(PrintPorts(ports))
    ensures |ports| > 1 ==> ' ' in PrintPorts(ports)
  {
    PrintedNumber(ports[0]);
    if |ports| > 1 {
      PrintedPorts(ports[1..]);
      PrintedPair(Itoa(ports[0]), PrintPorts(ports[1..]));
      JoinCons(Itoa(ports[0]), ItoaAll(ports[1..]), ' ');
      assert ItoaAll(ports) == [Itoa(ports[0])] + ItoaAll(ports[1..]);
    } else {
      assert PrintPorts(ports) == Itoa(ports[0]);
    }
  }

  /** Ports are printed with spaces between them and parsed with commas: a list survives exactly if it
      has at most one port, and the monitor rejects every longer one. */
  lemma {:induction false} PortsRoundTrip(ports: seq<Int>)
    ensures |ports| <= 1 ==> ParseInts(PrintPorts(ports)) == Some(ports)
    ensures |ports| > 1 ==> ParseInts(PrintPorts(ports)) == None
  {
    var s := PrintPorts(ports);
    if ports != [] {
      PrintedPorts(ports);
      SplitFree(s, ',');
      JoinSplit(s, ',');
      assert Split(s, ',') == [s];
      assert ParseStrings(s) == [s];
      assert [s][..0] == [];
      if |ports| == 1 {
        AtoiItoa(ports[0]);
        assert s == Itoa(ports[0]);
        assert AtoiAll([s]) == Some([] + [ports[0]]);
        assert [] + [ports[0]] == ports;
      } else {
        SpaceIsNoNumber(s);
      }
    }
  }

  lemma {:induction false} PrintedSample()
    ensures PrintPorts([319, 320]) == "319 320"
  {
    assert Digits(3) == "3";
    assert Digits(31) == "31" && Digits(32) == "32";
    assert Digits(319) == "319" && Digits(320) == "320";
    var parts := ItoaAll([319, 320]);
    assert parts[0] == "319" && parts[1] == "320" && parts[1..] == ["320"];
    assert Join(parts[1..], ' ') == "320";
  }

  /** The two UDP ports of the sample configuration are rejected. */
  lemma {:induction false} SamplePortsRejected()
    ensures PrintPorts([319, 320]) == "319 320" && ParseInts(PrintPorts([319, 320])) == None
  {
    PrintedSample();
    PortsRoundTrip([319, 320]);
  }

  lemma {:induction false} SpaceIsNoNumber(s: string)
    requires ' ' in s && s[0] != ' '
    ensures Atoi(s) == None
  {
  }
}
