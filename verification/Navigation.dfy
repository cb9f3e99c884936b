/** Which tab and which device are active: the input handlers of tui/tabwindow.c and
    tui/devicewindow.c behind the dispatcher of tui/window.c. */
module Navigation {
  import opened WindowTypes
  import opened Arithmetic

  const HANDLE_NONE := 0
  const HANDLE_HANDLED := 1

  datatype Key = F3 | F4 | PageDown | CtrlN | PageUp | CtrlP | OtherKey

  /** A key press, and the return code of the main window's init, should it be called. */
  datatype Press = Press(key: Key, initRc: int)

  // ---------- what keys mean ----------

  function TabStep(key: Key): int {
    match key
    case PageDown => 1
    case CtrlN => 1
    case PageUp => -1
    case CtrlP => -1
    case _ => 0
  }

  function DeviceStep(key: Key): int {
    if key == F3 then -1 else if key == F4 then 1 else 0
  }

  // Next minus previous keys.
  ghost function NetSteps(presses: seq<Press>): int {
    if presses == [] then 0 else NetSteps(presses[..|presses| - 1]) + TabStep(presses[|presses| - 1].key)
  }

  function Wrap(x: int, n: nat): int {
    if x < 0 then x + n else if x >= n then x - n else x
  }

  function Clamp(x: int, lo: int, hi: int): int {
    if x < lo then lo else if x > hi then hi else x
  }

  // The walk over 0 .. count - 1 that stops at both ends.
  ghost function Walk(start: int, count: int, presses: seq<Press>): int {
    if presses == [] then start
    else Clamp(Walk(start, count, presses[..|presses| - 1]) + DeviceStep(presses[|presses| - 1].key), 0, count - 1)
  }

  // How many of the keys go forward, and how many back.
  ghost function Nexts(presses: seq<Press>): nat {
    if presses == [] then 0
    else
      var key := presses[|presses| - 1].key;
      Nexts(presses[..|presses| - 1]) + if key == PageDown || key == CtrlN then 1 else 0
  }

  ghost function Previouses(presses: seq<Press>): nat {
    if presses == [] then 0
    else
      var key := presses[|presses| - 1].key;
      Previouses(presses[..|presses| - 1]) + if key == PageUp || key == CtrlP then 1 else 0
  }

  lemma {:induction false} NetIsNextsMinusPreviouses(presses: seq<Press>)
    ensures NetSteps(presses) == Nexts(presses) - Previouses(presses)
  {
    if presses != [] { NetIsNextsMinusPreviouses(presses[..|presses| - 1]); }
  }

  lemma WrapIs(tab: int, step: int, n: nat)
    requires 0 <= tab < n && -1 <= step <= 1
    ensures Wrap(tab + step, n) == (tab + step + n) % n
  {
    var q := if tab + step < 0 then 0 else if tab + step < n then 1 else 2;
    var r := tab + step + n - q * n;
    assert q == 2 ==> q * n == n + n;
    RemainderIs(q, r, n);
  }

  // What one key makes of the active tab and the active device.
  ghost predicate Moves(key: Key, tabCount: nat, deviceCount: nat, tab: int, device: int, tab': int, device': int)
    requires tabCount > 0
  {
    match key
    case PageDown => tab' == (tab + 1) % tabCount && device' == device
    case CtrlN => tab' == (tab + 1) % tabCount && device' == device
    case PageUp => tab' == (tab + tabCount - 1) % tabCount && device' == device
    case CtrlP => tab' == (tab + tabCount - 1) % tabCount && device' == device
    case F3 => tab' == tab && device' == if device > 0 then device - 1 else 0
    case F4 => tab' == tab && device' == if device < deviceCount - 1 then device + 1 else deviceCount - 1
    case OtherKey => tab' == tab && device' == device
  }

  lemma KeyMoves(key: Key, tabCount: nat, deviceCount: nat, tab: int, device: int)
    requires 0 <= tab < tabCount && 0 <= device < deviceCount
    ensures Moves(key, tabCount, deviceCount, tab, device, Wrap(tab + TabStep(key), tabCount),
                  Clamp(device + DeviceStep(key), 0, deviceCount - 1))
  {
    WrapIs(tab, TabStep(key), tabCount);
    if tab + 1 == tabCount {
      RemainderIs(1, 0, tabCount);
    } else {
      RemainderIs(0, tab + 1, tabCount);
    }
  }

  // The row of the star, which starts on the active tab: it follows the tab whenever the main
  // window comes up, and stays where it is when that fails.
  ghost function StarRow(start: int, tabCount: nat, presses: seq<Press>): int
    requires tabCount > 0
  {
    if presses == [] then start
    else
      var last := presses[|presses| - 1];
      if TabStep(last.key) != 0 && last.initRc == 0 then (start + NetSteps(presses)) % tabCount
      else StarRow(start, tabCount, presses[..|presses| - 1])
  }

  // One star, on row i.
  ghost predicate StarOn(column: seq<char>, i: int) {
    forall k :: 0 <= k < |column| ==> column[k] == if k == i then '*' else ' '
  }

  class Context {
    const tabCount: nat
    const deviceCount: nat
    var activeTab: int
    var activeDevice: int
    const tabColumn: array<char>
    const deviceColumn: array<char>

    constructor (tabCount: nat, deviceCount: nat)
      requires tabCount > 0 && deviceCount > 0
      ensures Valid() && this.tabCount == tabCount && this.deviceCount == deviceCount
      ensures activeTab == 0 && activeDevice == 0 && StarOn(tabColumn[..], 0)
      ensures fresh(tabColumn) && fresh(deviceColumn)
    {
      this.tabCount, this.deviceCount := tabCount, deviceCount;
      activeTab, activeDevice := 0, 0;
      tabColumn := new char[tabCount](i => if i == 0 then '*' else ' ');
      deviceColumn := new char[deviceCount](i => if i == 0 then '*' else ' ');
    }

    // The device column is always right; the tab column is claimed separately.
    ghost predicate Valid()
      reads this, deviceColumn
    {
      && tabColumn != deviceColumn
      && tabColumn.Length == tabCount && 0 <= activeTab < tabCount
      && deviceColumn.Length == deviceCount && 0 <= activeDevice < deviceCount
      && StarOn(deviceColumn[..], activeDevice)
    }

    // updateActiveTab and updateActiveDevice
    static method UpdateColumn(column: array<char>, index: int)
      modifies column
      ensures StarOn(column[..], index)
    {
      for i := 0 to column.Length
        invariant StarOn(column[..i], index)
      {
        if i == index {
          column[i] := '*';
        } else {
          column[i] := ' ';
        }
      }
      assert column[..column.Length] == column[..];
    }

    method DeviceHandleInput(press: Press) returns (ret: int)
      requires Valid()
      modifies this`activeDevice, deviceColumn
      ensures Valid()
      ensures activeDevice == Clamp(old(activeDevice) + DeviceStep(press.key), 0, deviceCount - 1)
      ensures ret == if deviceCount <= 1 || DeviceStep(press.key) == 0 then HANDLE_NONE
                     else if activeDevice != old(activeDevice) && press.initRc != 0 then press.initRc
                     else HANDLE_HANDLED
    {
      var handleType := HANDLE_HANDLED;
      var deviceId := activeDevice;
      if deviceCount <= 1 {
        return HANDLE_NONE;
      }
      match press.key {
        case F3 =>
          deviceId := deviceId - 1;
          if deviceId <= 0 { deviceId := 0; }
        case F4 =>
          deviceId := deviceId + 1;
          if deviceId >= deviceCount { deviceId := deviceCount - 1; }
        case _ =>
          handleType := HANDLE_NONE;
      }
      if deviceId != activeDevice {
        UpdateColumn(deviceColumn, deviceId);
        activeDevice := deviceId;
        if press.initRc != 0 {
          return press.initRc;
        }
      }
      return handleType;
    }

    // The active tab changes before the main window is brought up again, its star after that.
    method TabHandleInput(press: Press) returns (ret: int)
      requires Valid()
      modifies this`activeTab, tabColumn
      ensures Valid()
      ensures activeTab == Wrap(old(activeTab) + TabStep(press.key), tabCount)
      ensures activeTab == old(activeTab) || press.initRc != 0 ==> tabColumn[..] == old(tabColumn[..])
      ensures activeTab != old(activeTab) && press.initRc == 0 ==> StarOn(tabColumn[..], activeTab)
      ensures ret == if TabStep(press.key) == 0 then HANDLE_NONE
                     else if activeTab != old(activeTab) && press.initRc != 0 then press.initRc
                     else HANDLE_HANDLED
    {
      var handleType := HANDLE_HANDLED;
      var tabId := activeTab;
      match press.key {
        case PageDown | CtrlN =>
          tabId := tabId + 1;
          if tabId >= tabCount { tabId := 0; }
        case PageUp | CtrlP =>
          tabId := tabId - 1;
          if tabId < 0 { tabId := tabCount - 1; }
        case _ =>
          handleType := HANDLE_NONE;
      }
      if tabId != activeTab {
        activeTab := tabId;
        if press.initRc != 0 {
          return press.initRc;
        }
        UpdateColumn(tabColumn, tabId);
      }
      return handleType;
    }

    // WindowsDispatchInput. The main and the status window never report a key as handled.
    method DispatchInput(press: Press) returns (ret: int)
      requires Valid()
      modifies this, tabColumn, deviceColumn
      ensures Valid()
      ensures activeTab == Wrap(old(activeTab) + TabStep(press.key), tabCount)
      ensures activeDevice == Clamp(old(activeDevice) + DeviceStep(press.key), 0, deviceCount - 1)
      ensures Moves(press.key, tabCount, deviceCount, old(activeTab), old(activeDevice), activeTab, activeDevice)
      ensures activeTab == old(activeTab) || activeDevice == old(activeDevice)
      ensures old(StarOn(tabColumn[..], activeTab)) ==>
                (StarOn(tabColumn[..], activeTab) <==> press.initRc == 0 || activeTab == old(activeTab))
      ensures press.initRc == 0 && activeTab != old(activeTab) ==> StarOn(tabColumn[..], activeTab)
      ensures press.initRc != 0 || activeTab == old(activeTab) ==> tabColumn[..] == old(tabColumn[..])
      ensures ret == 0 || ret == 1
      ensures press.initRc == 0 ==>
                (ret == 1 <==> TabStep(press.key) != 0 || (deviceCount > 1 && DeviceStep(press.key) != 0))
    {
      ret := HANDLE_NONE;
      KeyMoves(press.key, tabCount, deviceCount, activeTab, activeDevice);
      assert StarOn(tabColumn[..], activeTab) ==> tabColumn[..][activeTab] == '*';
      for i := 0 to WINDOWS
        invariant Valid()
        invariant activeTab == if i <= TAB then old(activeTab) else Wrap(old(activeTab) + TabStep(press.key), tabCount)
        invariant activeDevice == if i <= DEVICE then old(activeDevice)
                                  else Clamp(old(activeDevice) + DeviceStep(press.key), 0, deviceCount - 1)
        invariant activeTab == old(activeTab) || press.initRc != 0 ==> tabColumn[..] == old(tabColumn[..])
        invariant activeTab != old(activeTab) && press.initRc == 0 ==> StarOn(tabColumn[..], activeTab)
        invariant press.initRc == 0 && i > DEVICE ==> deviceCount <= 1 || DeviceStep(press.key) == 0
        invariant press.initRc == 0 && i > TAB ==> TabStep(press.key) == 0
      {
        if i == DEVICE {
          ret := DeviceHandleInput(press);
        } else if i == TAB {
          ret := TabHandleInput(press);
        } else {
          ret := HANDLE_NONE;
        }
        if ret == HANDLE_HANDLED {
          return;
        }
      }
      ret := HANDLE_NONE;
    }

    // Any sequence of keys, with any outcome of the inits.
    method Run(presses: seq<Press>)
      requires Valid() && StarOn(tabColumn[..], activeTab)
      modifies this, tabColumn, deviceColumn
      ensures Valid()
      ensures activeTab == (old(activeTab) + NetSteps(presses)) % tabCount
      ensures activeTab == (old(activeTab) + Nexts(presses) - Previouses(presses)) % tabCount
      ensures activeDevice == Walk(old(activeDevice), deviceCount, presses)
      ensures StarOn(tabColumn[..], StarRow(old(activeTab), tabCount, presses))
      ensures StarOn(tabColumn[..], activeTab) <==> StarRow(old(activeTab), tabCount, presses) == activeTab
      ensures (forall i :: 0 <= i < |presses| ==> presses[i].initRc == 0) ==> StarOn(tabColumn[..], activeTab)
    {
      ghost var laps := 0;
      NetIsNextsMinusPreviouses(presses);
      for i := 0 to |presses|
        invariant Valid()
        invariant old(activeTab) + NetSteps(presses[..i]) == laps * tabCount + activeTab
        invariant activeDevice == Walk(old(activeDevice), deviceCount, presses[..i])
        invariant 0 <= StarRow(old(activeTab), tabCount, presses[..i]) < tabCount
        invariant StarOn(tabColumn[..], StarRow(old(activeTab), tabCount, presses[..i]))
        invariant (forall j :: 0 <= j < i ==> presses[j].initRc == 0) ==>
                    StarRow(old(activeTab), tabCount, presses[..i]) == activeTab
      {
        ghost var next := activeTab + TabStep(presses[i].key);
        var handled := DispatchInput(presses[i]);
        assert presses[..i + 1][..i] == presses[..i];
        ghost var lap := if next < 0 then -1 else if next >= tabCount then 1 else 0;
        assert (laps + lap) * tabCount == laps * tabCount + lap * tabCount;
        laps := laps + lap;
        RemainderIs(laps, activeTab, tabCount);
      }
      assert presses[..|presses|] == presses;
      assert tabColumn[..][activeTab] == tabColumn[activeTab];
      RemainderIs(laps, activeTab, tabCount);
    }
  }
}
