/** The messages of `hostapd`: unsolicited events, which start a handler, and replies to the monitor's
    own commands. */
module HostapdEvents {
  import opened Options
  import opened Text

  const STA_CONNECTED := "AP-STA-CONNECTED"
  const EAP_SUCCESS := "CTRL-EVENT-EAP-SUCCESS"
  const STA_DISCONNECTED := "AP-STA-DISCONNECTED"
  const EAP_FAILURE := "CTRL-EVENT-EAP-FAILURE"
  const STATUS_REPLY := "state="

  datatype IfState = Uninitialized | Disabled | CountryUpdate | Acs | HtScan | Dfs | Enabled | Unknown

  /** What the monitor does about a message. */
  datatype Action =
    | Authenticate(mac: string)
    | Deauthenticate(mac: string)
    | NoteSuccess(mac: string)
    | NoteFailure(mac: string)
    | SetState(state: IfState)
    | Nothing

  // ----- events -----

  /** The part of a word behind its first '>', or the whole word. */
  function AfterPriority(word: string): string {
    var i := Index(word, '>');
    if i == |word| then word else word[i + 1..]
  }

  predicate HasAt(s: string, sub: string, i: nat) {
    i + |sub| <= |s| && s[i..i + |sub|] == sub
  }

  predicate Contains(s: string, sub: string) {
    exists i :: 0 <= i <= |s| && HasAt(s, sub, i)
  }

  predicate Solicited(s: string) {
    Contains(s, "PONG\n") || Contains(s, "OK\n") || Contains(s, STATUS_REPLY)
  }

  function Handler(key: string, mac: string): Action {
    if key == STA_CONNECTED then Authenticate(mac)
    else if key == EAP_SUCCESS then NoteSuccess(mac)
    else if key == STA_DISCONNECTED then Deauthenticate(mac)
    else if key == EAP_FAILURE then NoteFailure(mac)
    else Nothing
  }

  function Dispatch(text: string): Action {
    var words := Split(text, ' ');
    if |words| < 2 then
      if Solicited(text) && Contains(text, STATUS_REPLY) then SetState(StateOf(text)) else Nothing
    else Handler(AfterPriority(words[0]), words[1])
  }

  /** `text` is an event: an optional priority in angle brackets, a key, a space, an address and
      possibly more words. */
  ghost predicate IsEvent(text: string, key: string, mac: string) {
    exists priority, more :: EventText(text, priority, key, mac, more)
  }

  ghost predicate EventText(text: string, priority: string, key: string, mac: string, more: string) {
    && text == priority + key + " " + mac + more
    && ' ' !in priority && ' ' !in mac
    && (priority == "" || Index(priority, '>') == |priority| - 1)
    && (more == "" || more[0] == ' ')
  }

  /** Key and address of a message of at least two words. */
  ghost predicate Names(text: string, key: string, mac: string) {
    var words := Split(text, ' ');
    |words| >= 2 && AfterPriority(words[0]) == key && words[1] == mac
  }

  lemma {:induction false} SecondWord(first: string, mac: string, more: string)
    requires ' ' !in first && ' ' !in mac && (more == "" || more[0] == ' ')
    ensures |Split(first + " " + mac + more, ' ')| >= 2
    ensures Split(first + " " + mac + more, ' ')[0] == first && Split(first + " " + mac + more, ' ')[1] == mac
  {
    assert first + " " + mac + more == first + [' '] + (mac + more);
    FirstTwo(first, mac, more, ' ');
  }

  lemma {:induction false} PriorityRemoved(priority: string, key: string)
    requires '>' !in key && (priority == "" || Index(priority, '>') == |priority| - 1)
    ensures AfterPriority(priority + key) == key
  {
    if priority == "" {
      assert priority + key == key;
    } else {
      var n := |priority| - 1;
      IndexFirst(priority, '>');
      assert priority + key == priority[..n] + ['>'] + key;
      IndexCons(priority[..n], '>', key);
      assert (priority + key)[n + 1..] == key;
    }
  }

  /** The message of an event names its key and address, whatever the priority and the further words. */
  lemma {:induction false} EventNames(text: string, priority: string, key: string, mac: string, more: string)
    requires EventText(text, priority, key, mac, more) && '>' !in key && ' ' !in key
    ensures Names(text, key, mac)
  {
    SecondWord(priority + key, mac, more);
    PriorityRemoved(priority, key);
  }

  lemma {:induction false} PriorityOf(word: string) returns (priority: string)
    ensures word == priority + AfterPriority(word)
    ensures priority == "" || Index(priority, '>') == |priority| - 1
  {
    var g := Index(word, '>');
    if g == |word| {
      priority := "";
    } else {
      priority := word[..g + 1];
      IndexFirst(word, '>');
      IndexCons(word[..g], '>', "");
      assert priority == word[..g] + ['>'] + "";
    }
  }

  /** Every message that names a key and an address is such an event. */
  lemma {:induction false} NamesEvent(text: string, key: string, mac: string)
    requires Names(text, key, mac)
    ensures IsEvent(text, key, mac)
  {
    var rest := FirstRest(text, ' ');
    var more := FirstRest(rest[1..], ' ');
    var word := Split(text, ' ')[0];
    var priority := PriorityOf(word);
    assert Split(rest[1..], ' ')[0] == mac;
    Assemble(text, word, rest, priority, key, mac, more);
  }

  lemma {:induction false} Assemble(text: string, word: string, rest: string, priority: string, key: string,
                                    mac: string, more: string)
    requires text == word + rest && rest != "" && rest[0] == ' ' && rest[1..] == mac + more
    requires word == priority + key && ' ' !in word && ' ' !in mac
    requires priority == "" || Index(priority, '>') == |priority| - 1
    requires more == "" || more[0] == ' '
    ensures EventText(text, priority, key, mac, more)
  {
  }

  lemma {:induction false} KeysAreWords(key: string)
    requires key in {STA_CONNECTED, EAP_SUCCESS, STA_DISCONNECTED, EAP_FAILURE}
    ensures '>' !in key && ' ' !in key
  {
  }

  /** A handler runs exactly for the events of its key, and with their address. */
  lemma {:induction false} DispatchExact(text: string, key: string, mac: string)
    requires key in {STA_CONNECTED, EAP_SUCCESS, STA_DISCONNECTED, EAP_FAILURE}
    ensures Dispatch(text) == Handler(key, mac) <==> IsEvent(text, key, mac)
  {
    KeysAreWords(key);
    if IsEvent(text, key, mac) {
      var priority, more :| EventText(text, priority, key, mac, more);
      EventNames(text, priority, key, mac, more);
    }
    if Dispatch(text) == Handler(key, mac) {
      HandlersDiffer(key, mac, AfterPriority(Split(text, ' ')[0]),
                     if |Split(text, ' ')| < 2 then "" else Split(text, ' ')[1]);
      NamesEvent(text, key, mac);
    }
  }

  lemma {:induction false} HandlersDiffer(key: string, mac: string, other: string, otherMac: string)
    requires key in {STA_CONNECTED, EAP_SUCCESS, STA_DISCONNECTED, EAP_FAILURE}
    ensures Handler(key, mac) == Handler(other, otherMac) ==> key == other && mac == otherMac
    ensures !Handler(key, mac).Nothing? && !Handler(key, mac).SetState?
    ensures Handler(STA_CONNECTED, mac) == Authenticate(mac) && Handler(STA_DISCONNECTED, mac) == Deauthenticate(mac)
    ensures Handler(EAP_SUCCESS, mac) == NoteSuccess(mac) && Handler(EAP_FAILURE, mac) == NoteFailure(mac)
  {
  }

  // ----- status replies -----

  /** The value a line gives to the word "state", if it does. */
  function Assigns(line: string): Option<string> {
    var parts := Split(line, '=');
    if parts[0] != "state" then None
    else if |parts| == 1 then Some("")
    else if |parts| == 2 then Some(parts[1])
    else None
  }

  /** Such a line is the bare word, or the word, one '=' and the value. */
  lemma {:induction false} AssignsMeaning(line: string, value: string)
    ensures Assigns(line) == Some(value) <==> SetsState(line, value)
  {
    JoinSplit(line, '=');
    SplitFree(line, '=');
    var parts := Split(line, '=');
    assert '=' !in "state";
    if line == "state" {
      assert parts == [line];
    }
    if line == "state=" + value && '=' !in value {
      assert line == "state" + ['='] + value;
      SplitCons("state", '=', value);
      SplitFree(value, '=');
      JoinSplit(value, '=');
      assert Split(value, '=') == [value];
    }
    if Assigns(line) == Some(value) {
      if |parts| == 1 {
        assert line == parts[0];
      } else {
        assert parts == [parts[0], parts[1]];
        assert parts[1..] == [parts[1]];
        assert line == "state" + ['='] + value;
      }
    }
  }

  /** The last line that assigns decides. */
  function Assigned(lines: seq<string>): Option<string> {
    if lines == [] then None
    else
      var n := |lines| - 1;
      if Assigns(lines[n]).Some? then Assigns(lines[n]) else Assigned(lines[..n])
  }

  lemma {:induction false} LastLineDecides(lines: seq<string>, i: nat)
    requires i < |lines| && Assigns(lines[i]).Some?
    requires forall j :: i < j < |lines| ==> Assigns(lines[j]).None?
    ensures Assigned(lines) == Assigns(lines[i])
  {
    if i < |lines| - 1 {
      LastLineDecides(lines[..|lines| - 1], i);
    }
  }

  lemma {:induction false} NoLineDecides(lines: seq<string>)
    requires forall j :: 0 <= j < |lines| ==> Assigns(lines[j]).None?
    ensures Assigned(lines) == None
  {
    if lines != [] {
      NoLineDecides(lines[..|lines| - 1]);
    }
  }

  function StateNamed(value: string): IfState {
    if value == "UNINITIALIZED" then Uninitialized
    else if value == "DISABLED" then Disabled
    else if value == "COUNTRY_UPDATE" then CountryUpdate
    else if value == "ACS" then Acs
    else if value == "HT_SCAN" then HtScan
    else if value == "DFS" then Dfs
    else if value == "ENABLED" then Enabled
    else Unknown
  }

  function StateOf(text: string): IfState {
    var value := Assigned(Split(text, '\n'));
    if value.None? then Unknown else StateNamed(value.value)
  }

  /** `line` is the bare word "state", or "state=" and a value without '='. */
  ghost predicate SetsState(line: string, value: string) {
    (line == "state" && value == "") || (line == "state=" + value && '=' !in value)
  }

  /** The states and their names in a reply. */
  ghost predicate StateIs(state: IfState, value: string) {
    && (state == Uninitialized <==> value == "UNINITIALIZED")
    && (state == Disabled <==> value == "DISABLED")
    && (state == CountryUpdate <==> value == "COUNTRY_UPDATE")
    && (state == Acs <==> value == "ACS")
    && (state == HtScan <==> value == "HT_SCAN")
    && (state == Dfs <==> value == "DFS")
    && (state == Enabled <==> value == "ENABLED")
  }

  /** The last such line of a reply decides the state, which is unknown unless the value is one of seven names; any
      other line, such as one with two or more '=', is ignored. */
  lemma {:induction false} StateIsLastLine(text: string, i: nat, value: string)
    requires i < |Split(text, '\n')| && SetsState(Split(text, '\n')[i], value)
    requires forall j, v :: i < j < |Split(text, '\n')| ==> !SetsState(Split(text, '\n')[j], v)
    ensures StateIs(StateOf(text), value)
  {
    var lines := Split(text, '\n');
    AssignsMeaning(lines[i], value);
    forall j | i < j < |lines| ensures Assigns(lines[j]).None? {
      if Assigns(lines[j]).Some? {
        AssignsMeaning(lines[j], Assigns(lines[j]).value);
      }
    }
    LastLineDecides(lines, i);
  }

  /** Without such a line the state is unknown. */
  lemma {:induction false} StateUnknownOtherwise(text: string)
    requires forall j, v :: 0 <= j < |Split(text, '\n')| ==> !SetsState(Split(text, '\n')[j], v)
    ensures StateOf(text) == Unknown
  {
    var lines := Split(text, '\n');
    forall j | 0 <= j < |lines| ensures Assigns(lines[j]).None? {
      if Assigns(lines[j]).Some? {
        AssignsMeaning(lines[j], Assigns(lines[j]).value);
      }
    }
    NoLineDecides(lines);
  }

  /** Collects all assignments of the text in a map, later ones overwriting earlier ones. */
  method GetIfState(text: string) returns (state: IfState)
    ensures state == StateOf(text)
  {
    var lines := Split(text, '\n');
    var statuses: map<string, string> := map[];
    for k := 0 to |lines|
      invariant Assigned(lines[..k]) == if "state" in statuses then Some(statuses["state"]) else None
    {
      assert lines[..k + 1][..k] == lines[..k];
      var part := Split(lines[k], '=');
      if |part| == 1 {
        statuses := statuses[part[0] := ""];
      }
      if |part| == 2 {
        statuses := statuses[part[0] := part[1]];
      }
    }
    assert lines[..|lines|] == lines;
    var value := if "state" in statuses then statuses["state"] else "";
    state := StateNamed(value);
  }
}
