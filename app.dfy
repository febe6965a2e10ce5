/** js/app.js: the shell around the views. Join-code entry, starting,
    joining and leaving a session, the network callbacks that keep
    `state.peers`, and the theme, language and name-field controls.

    `Shell` holds the module variable `hasNetwork` and the DOM values the
    code reads back (the join input, the name field, the stored theme) or
    that show a modelled value (the join button, the shown peer count).
    What `new URL(val)` made of a pasted value is a parameter; `navigator.onLine`
    is the field `online`. Views, toasts, status lines and the scanner are
    not modelled. */
module App {
  import opened Common
  import opened Protocol
  import opened State
  import Session
  import Network
  import Bartender
  import I18n

  // ---- Join codes -------------------------------------------------------

  /** What `new URL(val)` gave: a throw, or a URL with or without a `join`
      search parameter. */
  datatype UrlParse = NotUrl | Url(joinParam: Option<string>)

  /** The case-insensitive text `join=` at `i`, followed by a character of
      `[A-Za-z0-9]`: where `/join=([A-Za-z0-9]+)/i` can match. */
  predicate JoinAt(s: string, i: nat) {
    i + 6 <= |s| && ToLower(s[i..i + 5]) == "join=" && IsAlnum(s[i + 5])
  }

  /** The longest prefix of `[A-Za-z0-9]` characters. */
  function AlnumRun(s: string): (r: string)
    ensures r <= s
    ensures forall i :: 0 <= i < |r| ==> IsAlnum(r[i])
    ensures |r| < |s| ==> !IsAlnum(s[|r|])
  {
    if s != [] && IsAlnum(s[0]) then [s[0]] + AlnumRun(s[1..]) else []
  }

  /** The capture group of the leftmost match at or after `from`. */
  function MatchFrom(s: string, from: nat): (r: Option<string>)
    ensures r.Some? ==> r.value != [] && forall i :: 0 <= i < |r.value| ==> IsAlnum(r.value[i])
    decreases |s| - from
  {
    if from + 6 > |s| then None
    else if JoinAt(s, from) then Some(AlnumRun(s[from + 5..]))
    else MatchFrom(s, from + 1)
  }

  /** The leftmost match decides: a first `join=` with a code after it at
      `i` captures that code. */
  lemma {:induction false} MatchFirst(s: string, from: nat, i: nat)
    requires from <= i && JoinAt(s, i)
    requires forall j :: from <= j < i ==> !JoinAt(s, j)
    ensures MatchFrom(s, from) == Some(AlnumRun(s[i + 5..]))
    decreases i - from
  {
    if from < i {
      MatchFirst(s, from + 1, i);
    }
  }

  /** Without a `join=` followed by a code there is no match. */
  lemma {:induction false} MatchNone(s: string, from: nat)
    requires forall j :: from <= j ==> !JoinAt(s, j)
    ensures MatchFrom(s, from).None?
    decreases |s| - from
  {
    if from + 6 <= |s| {
      MatchNone(s, from + 1);
    }
  }

  /** The characters of `[A-Za-z0-9]`, in order. */
  function KeepAlnum(s: string): (r: string)
    ensures |r| <= |s|
    ensures forall i :: 0 <= i < |r| ==> IsAlnum(r[i])
  {
    if s == [] then []
    else if IsAlnum(s[0]) then [s[0]] + KeepAlnum(s[1..])
    else KeepAlnum(s[1..])
  }

  lemma {:induction false} KeepAlnumAll(s: string)
    requires forall i :: 0 <= i < |s| ==> IsAlnum(s[i])
    ensures KeepAlnum(s) == s
  {
    if s != [] {
      KeepAlnumAll(s[1..]);
    }
  }

  /** `.replace(/[^A-Za-z0-9]/g, '').slice(0, 6).toUpperCase()`. */
  function Normalize(v: string): (r: string)
    ensures |r| <= 6
  {
    var k := KeepAlnum(v);
    ToUpper(if |k| <= 6 then k else k[..6])
  }

  /** A code as the join field holds it: capitals and digits, at most
      six. */
  predicate IsFormatted(code: string) {
    |code| <= 6 && forall i :: 0 <= i < |code| ==> IsUpper(code[i]) || IsDigit(code[i])
  }

  lemma NormalizeFormatted(v: string)
    ensures IsFormatted(Normalize(v))
  {
    var k := KeepAlnum(v);
    var t := if |k| <= 6 then k else k[..6];
    assert forall i :: 0 <= i < |t| ==> IsAlnum(t[i]);
  }

  /** A formatted code is its own normal form. */
  lemma NormalizeFixed(code: string)
    requires IsFormatted(code)
    ensures Normalize(code) == code
  {
    KeepAlnumAll(code);
    assert forall i :: 0 <= i < |code| ==> UpperChar(code[i]) == code[i];
  }

  /** `formatJoinCode(val)`: a pasted URL gives its `join` parameter, text
      with `join=CODE` gives CODE, and the result is normalised. */
  function FormatJoinCode(val: string, parse: UrlParse): (r: string)
    ensures IsFormatted(r)
  {
    if val == "" then ""
    else
      var v := match parse
        case Url(p) => if p.Some? && p.value != "" then p.value else val
        case NotUrl => (var m := MatchFrom(val, 0); if m.Some? then m.value else val);
      NormalizeFormatted(v);
      Normalize(v)
  }

  /** The empty field stays empty. */
  lemma FormatEmpty(parse: UrlParse)
    ensures FormatJoinCode("", parse) == ""
  {
  }

  /** A formatted code has no `=`, so the pattern finds nothing in it,
      and it formats to itself. */
  lemma FormatFixed(code: string)
    requires IsFormatted(code)
    ensures MatchFrom(code, 0).None?
    ensures FormatJoinCode(code, NotUrl) == code
  {
    forall j: nat | 0 <= j
      ensures !JoinAt(code, j)
    {
      assert j + 6 <= |code| ==> ToLower(code[j..j + 5])[4] == LowerChar(code[j + 4]);
    }
    MatchNone(code, 0);
    NormalizeFixed(code);
  }

  /** Formatting is idempotent. A formatted code has no `:`, so `new URL`
      throws on it, and it has no `=`, so the pattern finds nothing. */
  lemma FormatIdempotent(val: string, parse: UrlParse)
    ensures FormatJoinCode(FormatJoinCode(val, parse), NotUrl) == FormatJoinCode(val, parse)
  {
    FormatFixed(FormatJoinCode(val, parse));
  }

  /** Text whose first `join=` followed by a code is at `i` yields that
      code, normalised. */
  lemma FormatExtractsJoin(val: string, i: nat)
    requires JoinAt(val, i) && forall j :: 0 <= j < i ==> !JoinAt(val, j)
    ensures FormatJoinCode(val, NotUrl) == Normalize(AlnumRun(val[i + 5..]))
  {
    MatchFirst(val, 0, i);
  }

  /** `join=` and a six-character code of capitals and digits, as the
      lobby's share link ends, gives that code. */
  lemma FormatJoinCodeText(code: string)
    requires |code| == 6 && forall i :: 0 <= i < 6 ==> IsUpper(code[i]) || IsDigit(code[i])
    ensures FormatJoinCode("join=" + code, NotUrl) == code
  {
    var val := "join=" + code;
    assert val[5..] == code;
    assert ToLower(val[0..5]) == "join=";
    assert JoinAt(val, 0);
    MatchFirst(val, 0, 0);
    assert forall i :: 0 <= i < |code| ==> IsAlnum(code[i]);
    assert AlnumRun(code) == code;
    NormalizeFixed(code);
  }

  /** The join button is enabled, and `joinSession` goes ahead, exactly
      for six characters. */
  predicate JoinAllowed(input: string, parse: UrlParse) {
    |FormatJoinCode(input, parse)| == 6
  }

  /** Every code the host can draw is accepted when typed as it is shown,
      and formats to itself. */
  lemma JoinAllowedCodes(code: string)
    requires Session.IsJoinCode(code)
    ensures JoinAllowed(code, NotUrl) && FormatJoinCode(code, NotUrl) == code
  {
    Session.AlphabetShape();
    assert IsFormatted(code);
    FormatFixed(code);
  }


  // ---- Small controls ---------------------------------------------------

  /** `clamp(val, min, max)`. */
  function Clamp(v: int, lo: int, hi: int): (r: int)
    ensures lo <= hi ==> lo <= r <= hi
    ensures lo <= v <= hi ==> r == v
  {
    Min(hi, Max(lo, v))
  }

  /** A JavaScript string's `length`: the number of UTF-16 code units, one
      for a character of the Basic Multilingual Plane and two (a surrogate
      pair) for any other. */
  function Utf16Length(s: string): (n: nat)
    ensures |s| <= n <= 2 * |s|
    ensures n == |s| <==> forall i :: 0 <= i < |s| ==> s[i] as int < 0x1_0000
    decreases |s|
  {
    if s == [] then 0
    else Utf16Length(s[..|s| - 1]) + (if s[|s| - 1] as int < 0x1_0000 then 1 else 2)
  }

  /** The name field's `size`: the trimmed value's length in UTF-16 units,
      or the placeholder's when the value is blank, plus one, within 8..20. */
  function UsernameSize(value: string, placeholder: string): (r: int)
    ensures 8 <= r <= 20
    ensures Trim(value) != "" && Utf16Length(Trim(value)) <= 19 ==> r == Max(8, Utf16Length(Trim(value)) + 1)
    ensures Trim(value) == "" && Utf16Length(placeholder) <= 19 ==> r == Max(8, Utf16Length(placeholder) + 1)
  {
    var base := if Trim(value) != "" then Trim(value) else placeholder;
    Clamp(Utf16Length(base) + 1, 8, 20)
  }

  /** A string of characters outside the Basic Multilingual Plane has
      twice as many code units as characters. */
  lemma {:induction false} Utf16Astral(s: string)
    requires forall i :: 0 <= i < |s| ==> s[i] as int >= 0x1_0000
    ensures Utf16Length(s) == 2 * |s|
    decreases |s|
  {
    if s != [] {
      Utf16Astral(s[..|s| - 1]);
    }
  }

  /** Eight emoji outside the Basic Multilingual Plane are sixteen code
      units, so the field gets size 17. */
  lemma EmojiNameSize()
    ensures UsernameSize("\U{1F600}\U{1F600}\U{1F600}\U{1F600}\U{1F600}\U{1F600}\U{1F600}\U{1F600}", "Worker") == 17
  {
    var e := "\U{1F600}\U{1F600}\U{1F600}\U{1F600}\U{1F600}\U{1F600}\U{1F600}\U{1F600}";
    assert Trim(e) == e;
    Utf16Astral(e);
  }

  /** The theme after `auto`, `light` or `dark`; anything else counts as
      the last and wraps to `auto`. */
  function NextTheme(current: string): (r: string)
    ensures r in {"auto", "light", "dark"}
  {
    if current == "auto" then "light" else if current == "light" then "dark" else "auto"
  }

  /** The stored theme after `cycleTheme()`: read with `auto` for nothing
      stored, then `applyTheme` removes the key for `auto` and stores the
      others. */
  function CycledTheme(stored: Option<string>): (r: Option<string>)
    ensures r in {None, Some("light"), Some("dark")}
  {
    var current := if stored.Some? && stored.value != "" then stored.value else "auto";
    var next := NextTheme(current);
    if next == "auto" then None else Some(next)
  }

  /** Three presses come back, after at most one press the stored theme
      is one of the three, and the presses run auto, light, dark. */
  lemma ThemePeriod(stored: Option<string>)
    ensures stored in {None, Some("light"), Some("dark")} ==>
      CycledTheme(CycledTheme(CycledTheme(stored))) == stored
    ensures CycledTheme(None) == Some("light") && CycledTheme(Some("light")) == Some("dark")
    ensures CycledTheme(Some("dark")) == None
    ensures stored in {None, Some("light"), Some("dark")} ==> CycledTheme(stored) != stored
  {
  }

  /** The language `cycleLang` switches to. */
  function NextLang(current: string): (r: string)
    ensures r == "en" || r == "hr"
    ensures r != current
  {
    if current == "en" then "hr" else "en"
  }

  lemma LangToggles(current: string)
    requires current == "en" || current == "hr"
    ensures NextLang(NextLang(current)) == current
  {
  }

  // ---- Peers ---------------------------------------------------------------

  /** `state.peers` after the data callback sees `data` from `peerId`. */
  function PeersAfterData(peers: map<string, PeerInfo>, data: Message, peerId: string): (r: map<string, PeerInfo>)
    ensures r.Keys == if data.Hello? then peers.Keys + {peerId} else peers.Keys
    ensures forall q :: q in peers && q != peerId ==> r[q] == peers[q]
  {
    if data.Hello? then peers[peerId := PeerInfo(data.name, data.role)] else peers
  }

  /** `state.peers` after the status callback sees `status`. */
  function PeersAfterStatus(peers: map<string, PeerInfo>, status: Status): (r: map<string, PeerInfo>)
    ensures r.Keys <= peers.Keys
    ensures forall q :: q in r ==> r[q] == peers[q]
    ensures status.Leave? && status.peerId != "" ==> status.peerId !in r
  {
    if status.Leave? && status.peerId != "" then peers - {status.peerId} else peers
  }

  /** The statuses that refresh the peer display. */
  predicate RefreshesPeers(status: Status) {
    status.Connected? || status.Peers? || status.Join? || status.Leave?
  }

  /** A `hello` records its sender with the announced name and role, the
      latest `hello` winning, and counts a new sender once. */
  lemma HelloRecords(peers: map<string, PeerInfo>, peerId: string, a: Message, b: Message)
    requires a.Hello? && b.Hello?
    ensures PeersAfterData(peers, a, peerId)[peerId] == PeerInfo(a.name, a.role)
    ensures PeersAfterData(PeersAfterData(peers, a, peerId), b, peerId) == PeersAfterData(peers, b, peerId)
    ensures |PeersAfterData(peers, a, peerId)| == |peers| + (if peerId in peers then 0 else 1)
    ensures forall q :: q != peerId ==>
      (q in PeersAfterData(peers, a, peerId) <==> q in peers)
  {
    var added := PeersAfterData(peers, a, peerId);
    if peerId !in peers {
      assert |added.Keys| == |peers.Keys| + 1;
    }
  }

  /** A `leave` forgets exactly that peer and counts one fewer if it was
      known. */
  lemma LeaveForgets(peers: map<string, PeerInfo>, peerId: string, n: nat)
    requires peerId != ""
    ensures PeersAfterStatus(peers, Leave(peerId, n)) == peers - {peerId}
    ensures |PeersAfterStatus(peers, Leave(peerId, n))| == |peers| - (if peerId in peers then 1 else 0)
  {
    var ks := peers.Keys;
    assert (peers - {peerId}).Keys == ks - {peerId};
    if peerId in peers {
      assert |ks - {peerId}| == |ks| - 1;
    } else {
      assert ks - {peerId} == ks;
    }
  }

  /** A new peer that says hello and then leaves is forgotten again. */
  lemma HelloThenLeave(peers: map<string, PeerInfo>, peerId: string, n: nat, hello: Message)
    requires peerId != "" && hello.Hello? && peerId !in peers
    ensures PeersAfterStatus(PeersAfterData(peers, hello, peerId), Leave(peerId, n)) == peers
  {
    var added := peers[peerId := PeerInfo(hello.name, hello.role)];
    assert (added - {peerId}).Keys == peers.Keys;
    assert added - {peerId} == peers;
  }

  /** The other data and statuses leave the peers alone. */
  lemma PeersUntouched(peers: map<string, PeerInfo>, data: Message, peerId: string, status: Status)
    ensures !data.Hello? ==> PeersAfterData(peers, data, peerId) == peers
    ensures !status.Leave? ==> PeersAfterStatus(peers, status) == peers
  {
  }

  /** The record `initSessionState` leaves: the session for `code` under
      `name` with no role, no peers, no orders and the waiter reset. */
  function Fresh(code: string, isHost: bool, name: string): Record {
    Record(None, Session.RoomIdFromCode(code), code, isHost, name, map[], None, [], [], [])
  }

  // ---- The shell -------------------------------------------------------------

  /** What `connectNetwork` leaves on the connection once it has called
      `initNetwork(roomId)` with no saved session: the ids settled from the
      room id, then setupRoom's outcome. A join opens the room and its send
      action, runs one heartbeat and logs `connected`; a throw logs `error`
      and leaves the room, send action and heartbeat as they were
      (`log0`, `room0`, `send0`, `interval0` and `loops0`). */
  ghost predicate NetworkSetUp(net: Network.Connection, roomId: string, outcome: Network.SetupOutcome,
                               log0: seq<Status>, room0: bool, send0: bool, interval0: bool, loops0: nat)
    reads net
  {
    net.currentRoomId == roomId &&
    net.currentSessionCode == Network.InitialSessionCode(roomId, None) && !net.currentIsHost &&
    (outcome == Network.Joined ==>
      net.room && net.sendAction && net.heartbeatInterval && net.heartbeatLoops == 1 &&
      net.statusLog == log0 + [Connected(|net.presence|)]) &&
    (outcome == Network.Threw ==>
      net.statusLog == log0 + [Error] && net.room == room0 && net.sendAction == send0 &&
      net.heartbeatInterval == interval0 && net.heartbeatLoops == loops0)
  }

  /** The app's module state and the DOM values it reads back. */
  class Shell {
    var hasNetwork: bool
    var online: bool
    /** `joinInput.value` and whether the join button is enabled. */
    var joinInput: string
    var joinEnabled: bool
    /** `headerUsername.value`, its placeholder and its `size`. */
    var username: string
    var placeholder: string
    var usernameSize: int
    /** The `barlink_theme` key. */
    var storedTheme: Option<string>
    /** The count the lobby and the status pill show. */
    var shownPeers: nat
    /** What `persist()` last saved. */
    var savedSession: Option<SavedSession>

    constructor (online: bool, placeholder: string, storedTheme: Option<string>)
      ensures !hasNetwork && this.online == online && joinInput == "" && !joinEnabled
      ensures username == "" && this.placeholder == placeholder && this.storedTheme == storedTheme
      ensures shownPeers == 0 && savedSession == None
    {
      hasNetwork := false;
      this.online := online;
      joinInput := "";
      joinEnabled := false;
      username := "";
      this.placeholder := placeholder;
      usernameSize := 8;
      this.storedTheme := storedTheme;
      shownPeers := 0;
      savedSession := None;
    }

    /** `syncJoinControls()`: the field is rewritten to its formatted form
        and the button enabled for six characters. */
    method SyncJoinControls(parse: UrlParse)
      modifies this`joinInput, this`joinEnabled
      ensures joinInput == FormatJoinCode(old(joinInput), parse)
      ensures joinEnabled <==> JoinAllowed(old(joinInput), parse)
    {
      var formatted := FormatJoinCode(joinInput, parse);
      var allowed := |formatted| == 6;
      if joinInput != formatted {
        joinInput := formatted;
      }
      joinEnabled := allowed;
    }

    /** `syncUsernameWidth()`. */
    method SyncUsernameWidth()
      modifies this`usernameSize
      ensures usernameSize == UsernameSize(username, placeholder) && 8 <= usernameSize <= 20
    {
      var base := if Trim(username) != "" then Trim(username) else placeholder;
      usernameSize := Clamp(Utf16Length(base) + 1, 8, 20);
    }

    /** `updatePeerUI()`: when online, the number of known peers is shown. */
    method UpdatePeerUI(st: AppState)
      modifies this`shownPeers
      ensures online ==> shownPeers == |st.peers|
      ensures !online ==> shownPeers == old(shownPeers)
    {
      if !online {
        return;
      }
      shownPeers := |st.peers|;
    }

    /** `persist()`. */
    method Persist(st: AppState)
      modifies this`savedSession
      ensures savedSession == Some(Session.Persisted(st.Snap()))
    {
      savedSession := Some(SavedSession(st.sessionCode, st.roomId, st.isHost, st.workerName, st.role));
    }

    /** `cycleTheme()`. */
    method CycleTheme()
      modifies this`storedTheme
      ensures storedTheme == CycledTheme(old(storedTheme))
    {
      var current := if storedTheme.Some? && storedTheme.value != "" then storedTheme.value else "auto";
      var next := if current == "auto" then "light" else if current == "light" then "dark" else "auto";
      if next == "auto" {
        storedTheme := None;
      } else {
        storedTheme := Some(next);
      }
    }

    /** `cycleLang()`: between English and Croatian, each switch stored
        when the locale exists. */
    method CycleLang(tr: I18n.Translator, st: AppState, parse: UrlParse)
      modifies tr`currentLang, tr`savedLang, this`joinInput, this`joinEnabled, this`shownPeers, this`usernameSize
      ensures var next := NextLang(old(tr.currentLang));
        (tr.Supported(next) ==> tr.currentLang == next && tr.savedLang == Some(next)) &&
        (!tr.Supported(next) ==> tr.currentLang == old(tr.currentLang) && tr.savedLang == old(tr.savedLang))
      ensures joinInput == FormatJoinCode(old(joinInput), parse)
      ensures joinEnabled <==> JoinAllowed(old(joinInput), parse)
      ensures shownPeers == (if online then |st.peers| else old(shownPeers))
      ensures usernameSize == UsernameSize(username, placeholder)
    {
      var current := tr.GetLanguage();
      var next := if current == "en" then "hr" else "en";
      tr.SetLanguage(next);
      SyncJoinControls(parse);
      UpdatePeerUI(st);
      SyncUsernameWidth();
    }

    /** The data callback of `connectNetwork`. */
    method OnData(st: AppState, bar: Bartender.Queue, data: Message, peerId: string)
      requires bar.Valid()
      modifies st`peers, this`shownPeers, bar`feed, bar`tableCards, bar`nextId
      ensures bar.Valid()
      ensures st.peers == PeersAfterData(old(st.peers), data, peerId)
      ensures data.NewOrder? ==> bar.Snap() == Bartender.Receive(old(bar.Snap()), data.tableId, data.items, data.timestamp)
      ensures !data.NewOrder? ==> bar.Snap() == old(bar.Snap())
      ensures data.Hello? && online ==> shownPeers == |st.peers|
      ensures !(data.Hello? && online) ==> shownPeers == old(shownPeers)
    {
      if data.Hello? {
        st.peers := st.peers[peerId := PeerInfo(data.name, data.role)];
        UpdatePeerUI(st);
      }
      if data.NewOrder? {
        bar.OnOrderReceived(data.tableId, data.items, data.timestamp);
      }
    }

    /** The status callback of `connectNetwork`; a `join` is greeted with
        a `hello` sent to that peer. */
    method OnStatus(st: AppState, net: Network.Connection, status: Status, now: int, sendOk: bool)
      requires net.Valid()
      modifies st`peers, this`shownPeers, net`sent, net`reconnectTimer, net`debounceTimers
      ensures net.Valid()
      ensures st.peers == PeersAfterStatus(old(st.peers), status)
      ensures RefreshesPeers(status) && online ==> shownPeers == |st.peers|
      ensures !(RefreshesPeers(status) && online) ==> shownPeers == old(shownPeers)
      ensures status.Join? && net.sendAction && sendOk ==>
        net.sent == old(net.sent) +
          [Frame(Hello(st.workerName, st.role, st.sessionCode), Network.Target(status.peerId))]
      ensures !status.Join? ==> net.sent == old(net.sent)
      ensures status.Join? && !(net.sendAction && sendOk) ==> net.sent == old(net.sent)
      ensures net.reconnectTimer ==
        (if status.Join? && net.sendAction && !sendOk then Some(now + Network.RECONNECT_DEBOUNCE_MS)
         else old(net.reconnectTimer))
    {
      if status.Leave? && status.peerId != "" {
        st.peers := st.peers - {status.peerId};
      }
      if status.Connected? || status.Peers? || status.Join? || status.Leave? {
        UpdatePeerUI(st);
      }
      if status.Join? {
        var _ := AnnounceSelf(st, net, status.peerId, now, sendOk);
      }
    }

    /** `connectNetwork()`; `joinOk` is whether the transport's `joinRoom`
        returned. The status callback runs inside `initNetwork`: the
        `connected` status of a successful join refreshes the peer count
        here, and the `error` of a throw touches no modelled state. */
    method ConnectNetwork(st: AppState, net: Network.Connection, joinOk: bool)
      returns (outcome: Option<Network.SetupOutcome>)
      requires net.Valid()
      modifies this`hasNetwork, this`shownPeers
      modifies net`currentRoomId, net`currentSessionCode, net`currentIsHost
      modifies net`room, net`sendAction, net`statusLog, net`heartbeatInterval, net`heartbeatLoops
      ensures net.Valid()
      ensures old(hasNetwork) ==> outcome.None? && hasNetwork && unchanged(net)
      ensures shownPeers == (if outcome == Some(Network.Joined) && online then |st.peers| else old(shownPeers))
      ensures outcome.Some? <==> !old(hasNetwork) && st.roomId != "" && st.sessionCode != ""
      ensures !old(hasNetwork) && (st.roomId == "" || st.sessionCode == "") ==>
        outcome.None? && !hasNetwork && unchanged(net)
      ensures outcome.Some? ==> (!old(hasNetwork) && st.roomId != "" && st.sessionCode != "" &&
        net.currentRoomId == st.roomId && outcome.value == (if joinOk then Network.Joined else Network.Threw) &&
        (hasNetwork <==> joinOk))
      ensures outcome.Some? ==>
        NetworkSetUp(net, st.roomId, outcome.value, old(net.statusLog), old(net.room), old(net.sendAction),
                     old(net.heartbeatInterval), old(net.heartbeatLoops))
    {
      if hasNetwork {
        return None;
      }
      if st.roomId == "" || st.sessionCode == "" {
        return None;
      }
      hasNetwork := true;
      var o := net.InitNetwork(st.roomId, None, joinOk);
      if o == Network.Threw {
        hasNetwork := false;
      } else {
        UpdatePeerUI(st);
      }
      outcome := Some(o);
    }

    /** `announceSelf(targetId)`: a `hello` with this worker's name, role
        and session code, to one peer or, for the empty id, to all. */
    method AnnounceSelf(st: AppState, net: Network.Connection, targetId: string, now: int, sendOk: bool)
      returns (ok: bool)
      requires net.Valid()
      modifies net`sent, net`reconnectTimer, net`debounceTimers
      ensures net.Valid()
      ensures ok <==> net.sendAction && sendOk
      ensures net.sent == old(net.sent) +
        (if ok then [Frame(Hello(st.workerName, st.role, st.sessionCode), Network.Target(targetId))] else [])
      ensures net.reconnectTimer ==
        (if net.sendAction && !sendOk then Some(now + Network.RECONNECT_DEBOUNCE_MS) else old(net.reconnectTimer))
    {
      ok := net.Broadcast(Some(Hello(st.workerName, st.role, st.sessionCode)), targetId, now, sendOk);
    }

    /** `initSessionState(code, isHost)`: whatever came before, the state
        is the fresh session under the entered name, or `Worker`, and it is
        saved. */
    method InitSessionState(st: AppState, code: string, isHost: bool)
      modifies st, this`hasNetwork, this`username, this`usernameSize, this`savedSession
      ensures !hasNetwork
      ensures username == (if Trim(old(username)) != "" then Trim(old(username)) else "Worker")
      ensures st.Snap() == Fresh(code, isHost, username)
      ensures savedSession == Some(Session.Persisted(st.Snap()))
      ensures usernameSize == UsernameSize(username, placeholder)
    {
      st.peers := map[];
      st.barOrders := [];
      st.ResetWaiterState();
      hasNetwork := false;
      var safeName := if Trim(username) != "" then Trim(username) else "Worker";
      var session := SavedSession(code, Session.RoomIdFromCode(code), isHost, safeName, None);
      username := safeName;
      SyncUsernameWidth();
      Session.SyncStateToSession(st, session);
      Persist(st);
    }

    /** What `startHost` and `joinSession` share once they have a code: the
        waiter reset, no orders, `initSessionState`, the lobby's peer count
        and `connectNetwork`. */
    method OpenSession(st: AppState, net: Network.Connection, code: string, isHost: bool, joinOk: bool)
      returns (outcome: Option<Network.SetupOutcome>)
      requires code != "" && net.Valid()
      modifies st, this`hasNetwork, this`username, this`usernameSize, this`savedSession, this`shownPeers
      modifies net`currentRoomId, net`currentSessionCode, net`currentIsHost
      modifies net`room, net`sendAction, net`statusLog, net`heartbeatInterval, net`heartbeatLoops
      ensures net.Valid()
      ensures username == (if Trim(old(username)) != "" then Trim(old(username)) else "Worker")
      ensures st.Snap() == Fresh(code, isHost, username)
      ensures savedSession == Some(Session.Persisted(st.Snap()))
      ensures outcome == Some(if joinOk then Network.Joined else Network.Threw)
      ensures NetworkSetUp(net, Session.RoomIdFromCode(code), outcome.value, old(net.statusLog), old(net.room),
                           old(net.sendAction), old(net.heartbeatInterval), old(net.heartbeatLoops))
      ensures hasNetwork <==> joinOk
      ensures shownPeers == (if online then 0 else old(shownPeers))
    {
      st.ResetWaiterState();
      st.barOrders := [];
      InitSessionState(st, code, isHost);
      ghost var started := st.Snap();
      ghost var name := username;
      ghost var saved := savedSession;
      assert st.roomId != "" && st.sessionCode != "";
      UpdatePeerUI(st);
      outcome := ConnectNetwork(st, net, joinOk);
      assert st.Snap() == started && username == name && savedSession == saved;
    }

    /** `startHost()`: a fresh hosted session for the drawn code, and a
        first attempt to join its room. */
    method StartHost(st: AppState, net: Network.Connection, picks: seq<nat>, joinOk: bool)
      returns (code: string, outcome: Option<Network.SetupOutcome>)
      requires |picks| == Session.CODE_LENGTH
      requires forall i :: 0 <= i < |picks| ==> picks[i] < |Session.CODE_ALPHABET|
      requires net.Valid()
      modifies st, this`hasNetwork, this`username, this`usernameSize, this`savedSession, this`shownPeers
      modifies net`currentRoomId, net`currentSessionCode, net`currentIsHost
      modifies net`room, net`sendAction, net`statusLog, net`heartbeatInterval, net`heartbeatLoops
      ensures net.Valid()
      ensures Session.IsJoinCode(code)
      ensures forall i :: 0 <= i < Session.CODE_LENGTH ==> code[i] == Session.CODE_ALPHABET[picks[i]]
      ensures st.Snap() == Fresh(code, true, username)
      ensures savedSession == Some(Session.Persisted(st.Snap()))
      ensures outcome == Some(if joinOk then Network.Joined else Network.Threw)
      ensures NetworkSetUp(net, Session.RoomIdFromCode(code), outcome.value, old(net.statusLog), old(net.room),
                           old(net.sendAction), old(net.heartbeatInterval), old(net.heartbeatLoops))
      ensures hasNetwork <==> joinOk
      ensures shownPeers == (if online then 0 else old(shownPeers))
    {
      code := Session.GenerateJoinCode(picks);
      outcome := OpenSession(st, net, code, true, joinOk);
    }

    /** `joinSession()`: nothing happens unless the field formats to six
        characters; then a fresh joined session for that code and a first
        attempt to join its room. */
    method JoinSession(st: AppState, net: Network.Connection, parse: UrlParse, joinOk: bool)
      returns (joined: bool, outcome: Option<Network.SetupOutcome>)
      requires net.Valid()
      modifies st, this`hasNetwork, this`username, this`usernameSize, this`savedSession, this`shownPeers
      modifies net`currentRoomId, net`currentSessionCode, net`currentIsHost
      modifies net`room, net`sendAction, net`statusLog, net`heartbeatInterval, net`heartbeatLoops
      ensures net.Valid()
      ensures joined <==> JoinAllowed(joinInput, parse)
      ensures !joined ==> (outcome.None? && unchanged(st) && unchanged(net) &&
        hasNetwork == old(hasNetwork) && savedSession == old(savedSession) && shownPeers == old(shownPeers) &&
        username == old(username) && usernameSize == old(usernameSize))
      ensures joined ==>
        st.Snap() == Fresh(FormatJoinCode(joinInput, parse), false, username) &&
        savedSession == Some(Session.Persisted(st.Snap())) &&
        outcome == Some(if joinOk then Network.Joined else Network.Threw) &&
        NetworkSetUp(net, Session.RoomIdFromCode(FormatJoinCode(joinInput, parse)), outcome.value,
                     old(net.statusLog), old(net.room), old(net.sendAction),
                     old(net.heartbeatInterval), old(net.heartbeatLoops)) &&
        (hasNetwork <==> joinOk) &&
        shownPeers == (if online then 0 else old(shownPeers))
    {
      var code := FormatJoinCode(joinInput, parse);
      if |code| != 6 {
        return false, None;
      }
      joined := true;
      outcome := OpenSession(st, net, code, false, joinOk);
    }

    /** `if (session.role)` in `resumeFlow`: a saved non-empty role goes
        straight back to its view, without the lobby. */
    predicate Resumes(session: SavedSession) {
      session.role.Some? && session.role.value != ""
    }

    /** `resumeFlow(session)`: the saved session back in the state with no
        peers, no orders and the waiter reset, and a new attempt to join. */
    method ResumeFlow(st: AppState, net: Network.Connection, session: SavedSession, joinOk: bool)
      returns (outcome: Option<Network.SetupOutcome>)
      requires net.Valid()
      modifies st, this`hasNetwork, this`shownPeers
      modifies net`currentRoomId, net`currentSessionCode, net`currentIsHost
      modifies net`room, net`sendAction, net`statusLog, net`heartbeatInterval, net`heartbeatLoops
      ensures net.Valid()
      ensures st.Snap() == State.ResetWaiter(Session.Synced(old(st.Snap()), session).(peers := map[], barOrders := []))
      ensures session.roomId != "" && session.sessionCode != "" ==>
        outcome == Some(if joinOk then Network.Joined else Network.Threw) && (hasNetwork <==> joinOk)
      ensures session.roomId == "" || session.sessionCode == "" ==> outcome.None? && !hasNetwork && unchanged(net)
      ensures outcome.Some? ==>
        NetworkSetUp(net, session.roomId, outcome.value, old(net.statusLog), old(net.room), old(net.sendAction),
                     old(net.heartbeatInterval), old(net.heartbeatLoops))
      ensures shownPeers ==
        (if online && (outcome == Some(Network.Joined) || !Resumes(session)) then 0 else old(shownPeers))
    {
      Session.SyncStateToSession(st, session);
      st.peers := map[];
      st.barOrders := [];
      st.ResetWaiterState();
      hasNetwork := false;
      if Resumes(session) {
        outcome := ConnectNetwork(st, net, joinOk);
      } else {
        UpdatePeerUI(st);
        outcome := ConnectNetwork(st, net, joinOk);
      }
    }

    /** `selectRole(role)`: the role and the name field, untrimmed, or
        `Worker`, become the state's and are saved. */
    method SelectRole(st: AppState, role: string)
      modifies st`role, st`workerName, this`savedSession
      ensures st.role == Some(role)
      ensures st.workerName == (if username != "" then username else "Worker")
      ensures savedSession == Some(Session.Persisted(st.Snap()))
    {
      st.role := Some(role);
      st.workerName := if username != "" then username else "Worker";
      Persist(st);
    }

    /** `returnToLobby()`: the role is dropped and saved so, and the waiter
        reset; the session and peers stay. */
    method ReturnToLobby(st: AppState)
      modifies st`role, st`currentTable, st`currentPath, st`currentOrder, this`savedSession
      ensures st.Snap() == State.ResetWaiter(old(st.Snap()).(role := None))
      ensures savedSession == Some(Session.Persisted(st.Snap()))
      ensures savedSession.value.role == None && savedSession.value.sessionCode == old(st.sessionCode)
    {
      st.role := None;
      st.ResetWaiterState();
      Persist(st);
    }
  }
}
