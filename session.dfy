/** chromeExtension/js/session.js: join codes, the room id derived from a
    code, and copying a saved session into the shared state. The random
    draws of `generateJoinCode` are its argument: one alphabet index per
    character, each what `Math.floor(Math.random() * 32)` produced. */
module Session {
  import opened Common
  import opened Protocol
  import opened State
  import Network

  /** The code alphabet: capitals and digits without I, O, 0 and 1, the
      string "ABCDEFGHJKLMNPQRSTUVWXYZ23456789" written as its four runs of
      consecutive characters. */
  const RUN_A: string := "ABCDEFGH"
  const RUN_J: string := "JKLMN"
  const RUN_P: string := "PQRSTUVWXYZ"
  const RUN_2: string := "23456789"
  const CODE_ALPHABET: string := RUN_A + RUN_J + RUN_P + RUN_2
  const CODE_LENGTH: nat := 6

  /** A code `generateJoinCode` can return. */
  predicate IsJoinCode(code: string) {
    |code| == CODE_LENGTH && forall i :: 0 <= i < |code| ==> code[i] in CODE_ALPHABET
  }

  /** `s` is the characters from `first` onward, one after another. */
  ghost predicate Consecutive(s: string, first: char) {
    forall k :: 0 <= k < |s| ==> s[k] as int == first as int + k
  }

  lemma RunsConsecutive()
    ensures Consecutive(RUN_A, 'A') && Consecutive(RUN_J, 'J')
    ensures Consecutive(RUN_P, 'P') && Consecutive(RUN_2, '2')
  {
  }

  /** The character code at position `k` of the alphabet. */
  ghost function AlphabetCode(k: nat): int {
    if k < 8 then 'A' as int + k
    else if k < 13 then 'J' as int + (k - 8)
    else if k < 24 then 'P' as int + (k - 13)
    else '2' as int + (k - 24)
  }

  lemma AlphabetCodes()
    ensures |CODE_ALPHABET| == 32
    ensures forall k :: 0 <= k < |CODE_ALPHABET| ==> CODE_ALPHABET[k] as int == AlphabetCode(k)
  {
    RunsConsecutive();
    var s := CODE_ALPHABET;
    forall k | 0 <= k < |s|
      ensures s[k] as int == AlphabetCode(k)
    {
      if k < 8 {
        assert s[k] == RUN_A[k];
      } else if k < 13 {
        assert s[k] == RUN_J[k - 8];
      } else if k < 24 {
        assert s[k] == RUN_P[k - 13];
      } else {
        assert s[k] == RUN_2[k - 24];
      }
    }
  }

  /** The alphabet has 32 distinct characters, all capitals or digits, and
      none of the look-alikes I, O, 0, 1. */
  lemma AlphabetShape()
    ensures |CODE_ALPHABET| == 32
    ensures forall i, j :: 0 <= i < j < |CODE_ALPHABET| ==> CODE_ALPHABET[i] != CODE_ALPHABET[j]
    ensures forall c :: c in CODE_ALPHABET ==> IsUpper(c) || IsDigit(c)
    ensures 'I' !in CODE_ALPHABET && 'O' !in CODE_ALPHABET && '0' !in CODE_ALPHABET && '1' !in CODE_ALPHABET
  {
    AlphabetCodes();
    var s := CODE_ALPHABET;
    forall i, j | 0 <= i < j < |s|
      ensures s[i] != s[j]
    {
      assert AlphabetCode(i) != AlphabetCode(j);
    }
    forall k | 0 <= k < |s|
      ensures IsUpper(s[k]) || IsDigit(s[k])
      ensures s[k] != 'I' && s[k] != 'O' && s[k] != '0' && s[k] != '1'
    {
      assert s[k] as int == AlphabetCode(k);
    }
  }

  /** `generateJoinCode()`: six characters, each the drawn alphabet entry. */
  method GenerateJoinCode(picks: seq<nat>) returns (code: string)
    requires |picks| == CODE_LENGTH
    requires forall i :: 0 <= i < |picks| ==> picks[i] < |CODE_ALPHABET|
    ensures IsJoinCode(code)
    ensures forall i :: 0 <= i < CODE_LENGTH ==> code[i] == CODE_ALPHABET[picks[i]]
  {
    code := "";
    for i := 0 to CODE_LENGTH
      invariant |code| == i
      invariant forall k :: 0 <= k < i ==> code[k] == CODE_ALPHABET[picks[k]]
    {
      code := code + [CODE_ALPHABET[picks[i]]];
    }
  }

  /** The position of a character in the alphabet. */
  function AlphabetIndex(c: char): (k: nat)
    requires c in CODE_ALPHABET
    ensures k < |CODE_ALPHABET| && CODE_ALPHABET[k] == c
  {
    IndexIn(CODE_ALPHABET, c)
  }

  function IndexIn(s: string, c: char): (k: nat)
    requires c in s
    ensures k < |s| && s[k] == c
  {
    if s[0] == c then 0 else 1 + IndexIn(s[1..], c)
  }

  /** Every join code is the outcome of some draw: the generator can
      produce each of the 32^6 codes. */
  lemma EveryCodeDrawable(code: string)
    requires IsJoinCode(code)
    ensures exists picks: seq<nat> ::
      |picks| == CODE_LENGTH && (forall i :: 0 <= i < |picks| ==> picks[i] < |CODE_ALPHABET|) &&
      forall i :: 0 <= i < CODE_LENGTH ==> code[i] == CODE_ALPHABET[picks[i]]
  {
    var picks := seq(CODE_LENGTH, i requires 0 <= i < CODE_LENGTH => AlphabetIndex(code[i]));
    assert forall i :: 0 <= i < |picks| ==> picks[i] < |CODE_ALPHABET| && code[i] == CODE_ALPHABET[picks[i]];
  }

  /** `roomIdFromCode(code)`. */
  function RoomIdFromCode(code: string): (r: string)
    ensures StartsWith(r, Network.ROOM_PREFIX)
    ensures r[|Network.ROOM_PREFIX|..] == ToLower(code)
  {
    Network.ROOM_PREFIX + ToLower(code)
  }

  /** Codes that differ only in the case of their letters. */
  predicate SameUpToCase(a: string, b: string) {
    |a| == |b| && forall i :: 0 <= i < |a| ==> UpperChar(a[i]) == UpperChar(b[i])
  }

  /** Such codes name the same room. */
  lemma RoomIdCaseBlind(a: string, b: string)
    requires SameUpToCase(a, b)
    ensures RoomIdFromCode(a) == RoomIdFromCode(b)
  {
    assert ToLower(a) == ToLower(b) by {
      forall i | 0 <= i < |a|
        ensures LowerChar(a[i]) == LowerChar(b[i])
      {
        assert UpperChar(a[i]) == UpperChar(b[i]);
      }
    }
  }

  /** Upper-casing the lower-cased form restores a string of capitals and
      digits. */
  lemma UpperOfLower(code: string)
    requires forall i :: 0 <= i < |code| ==> IsUpper(code[i]) || IsDigit(code[i])
    ensures ToUpper(ToLower(code)) == code
  {
    var u := ToUpper(ToLower(code));
    forall i | 0 <= i < |code|
      ensures u[i] == code[i]
    {
      UpperLowerChar(code[i]);
    }
  }

  lemma UpperLowerChar(c: char)
    requires IsUpper(c) || IsDigit(c)
    ensures UpperChar(LowerChar(c)) == c
  {
  }

  /** What `initNetwork` recovers from the room id when no session is
      restored is the code the room id was made from. */
  lemma RoomIdRoundTrip(code: string)
    requires IsJoinCode(code)
    ensures Network.InitialSessionCode(RoomIdFromCode(code), None) == code
  {
    AlphabetShape();
    UpperOfLower(code);
  }

  /** Distinct join codes therefore give distinct rooms. */
  lemma RoomIdInjective(a: string, b: string)
    requires IsJoinCode(a) && IsJoinCode(b) && RoomIdFromCode(a) == RoomIdFromCode(b)
    ensures a == b
  {
    RoomIdRoundTrip(a);
    RoomIdRoundTrip(b);
  }

  /** `session.role || null`: an empty role counts as none. */
  function RoleOrNull(role: Option<string>): (r: Option<string>)
    ensures r.Some? <==> role.Some? && role.value != ""
    ensures r.Some? ==> r == role
  {
    if role.Some? && role.value != "" then role else None
  }

  /** The record after `syncStateToSession(session)`. */
  function Synced(s: Record, session: SavedSession): (r: Record)
    ensures r.sessionCode == session.sessionCode && r.roomId == session.roomId && r.workerName == session.workerName
    ensures r.peers == s.peers && r.currentOrder == s.currentOrder && r.barOrders == s.barOrders
  {
    s.(sessionCode := session.sessionCode, roomId := session.roomId, isHost := session.isHost,
       workerName := session.workerName, role := RoleOrNull(session.role))
  }

  /** `persist()` in js/app.js: the session fields of the state saved. */
  function Persisted(s: Record): (r: SavedSession)
    ensures Synced(s, r) == s.(role := RoleOrNull(s.role))
  {
    SavedSession(s.sessionCode, s.roomId, s.isHost, s.workerName, s.role)
  }

  /** Syncing copies the five session fields and touches nothing else. */
  lemma SyncedEffect(s: Record, session: SavedSession)
    ensures Synced(s, session).sessionCode == session.sessionCode && Synced(s, session).roomId == session.roomId
    ensures Synced(s, session).isHost == session.isHost && Synced(s, session).workerName == session.workerName
    ensures Synced(s, session).role == RoleOrNull(session.role)
    ensures Synced(s, session).peers == s.peers && Synced(s, session).currentTable == s.currentTable
    ensures Synced(s, session).currentPath == s.currentPath && Synced(s, session).currentOrder == s.currentOrder
    ensures Synced(s, session).barOrders == s.barOrders
  {
  }

  /** Saving after a sync writes back the session that was loaded, unless
      its role was the empty string, which is saved as none. */
  lemma SyncPersistRoundTrip(s: Record, session: SavedSession)
    ensures Persisted(Synced(s, session)) == session.(role := RoleOrNull(session.role))
    ensures session.role != Some("") ==> Persisted(Synced(s, session)) == session
  {
  }

  /** `syncStateToSession(session)`. */
  method SyncStateToSession(st: AppState, session: SavedSession)
    modifies st`sessionCode, st`roomId, st`isHost, st`workerName, st`role
    ensures st.Snap() == Synced(old(st.Snap()), session)
  {
    st.sessionCode := session.sessionCode;
    st.roomId := session.roomId;
    st.isHost := session.isHost;
    st.workerName := session.workerName;
    st.role := RoleOrNull(session.role);
  }
}
