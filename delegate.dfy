/**
 * The window system's delegation manager: three groups of event callbacks
 * (window, keyboard, pointer) and a mask with one bit per callback that
 * says which events must be dispatched. A callback is an opaque identity;
 * an empty `std::function` is `None`. Every flag is a distinct single bit,
 * so the mask is modelled as the set of flags it has set: OR-ing a flag in
 * is adding it, AND-ing its complement is removing it.
 */
module WsDelegate {
  import opened Wrappers

  type Callback(==)
  type Slot = Option<Callback>

  datatype Flag = WdClose | WdResize | KbEnter | KbLeave | KbKey
                | PtEnter | PtLeave | PtMotion | PtButton

  /** The bit value of each flag in the source's mask. */
  function Bit(f: Flag): nat
  {
    match f
    case WdClose => 0x001
    case WdResize => 0x002
    case KbEnter => 0x004
    case KbLeave => 0x008
    case KbKey => 0x010
    case PtEnter => 0x020
    case PtLeave => 0x040
    case PtMotion => 0x080
    case PtButton => 0x100
  }

  const AllFlags: set<Flag> := {WdClose, WdResize, KbEnter, KbLeave, KbKey, PtEnter, PtLeave, PtMotion, PtButton}

  /** The flags each group of callbacks owns. */
  const WdGroup: set<Flag> := {WdClose, WdResize}
  const KbGroup: set<Flag> := {KbEnter, KbLeave, KbKey}
  const PtGroup: set<Flag> := {PtEnter, PtLeave, PtMotion, PtButton}

  type Mask = set<Flag>

  datatype WdDelegate = WdDelegate(close: Slot, resize: Slot)
  datatype KbDelegate = KbDelegate(enter: Slot, leave: Slot, key: Slot)
  datatype PtDelegate = PtDelegate(enter: Slot, leave: Slot, motion: Slot, button: Slot)

  /** The callback slot a flag stands for. */
  function SlotOf(f: Flag, wd: WdDelegate, kb: KbDelegate, pt: PtDelegate): Slot
  {
    match f
    case WdClose => wd.close
    case WdResize => wd.resize
    case KbEnter => kb.enter
    case KbLeave => kb.leave
    case KbKey => kb.key
    case PtEnter => pt.enter
    case PtLeave => pt.leave
    case PtMotion => pt.motion
    case PtButton => pt.button
  }

  /** One flag set when `present` and cleared otherwise. */
  function WithFlag(mask: Mask, flag: Flag, present: bool): Mask
  {
    if present then mask + {flag} else mask - {flag}
  }

  /** The mask a delegate's callbacks call for. */
  function MaskOf(wd: WdDelegate, kb: KbDelegate, pt: PtDelegate): (r: Mask)
    ensures r <= AllFlags
  {
    set f | f in AllFlags && SlotOf(f, wd, kb, pt).Some?
  }

  /** The mask says exactly which callbacks are present. */
  predicate Consistent(mask: Mask, wd: WdDelegate, kb: KbDelegate, pt: PtDelegate)
  {
    mask == MaskOf(wd, kb, pt)
  }

  /** The source's flag-by-flag update of one group. */
  function WdMask(mask: Mask, close: bool, resize: bool): Mask
  {
    WithFlag(WithFlag(mask, WdClose, close), WdResize, resize)
  }

  function KbMask(mask: Mask, enter: bool, leave: bool, key: bool): Mask
  {
    WithFlag(WithFlag(WithFlag(mask, KbEnter, enter), KbLeave, leave), KbKey, key)
  }

  function PtMask(mask: Mask, enter: bool, leave: bool, motion: bool, button: bool): Mask
  {
    WithFlag(WithFlag(WithFlag(WithFlag(mask, PtEnter, enter), PtLeave, leave), PtMotion, motion), PtButton, button)
  }

  /** The nine flags are distinct single bits 0x001..0x100 and the three
      groups partition them. */
  lemma FlagsAreDistinctBits()
    ensures forall f, g :: Bit(f) == Bit(g) ==> f == g
    ensures forall f :: Bit(f) in {1, 2, 4, 8, 16, 32, 64, 128, 256}
    ensures WdGroup * KbGroup == {} && WdGroup * PtGroup == {} && KbGroup * PtGroup == {}
    ensures WdGroup + KbGroup + PtGroup == AllFlags
  {
  }

  lemma InAllFlags(f: Flag)
    ensures f in AllFlags
  {
    match f
    case WdClose => case WdResize => case KbEnter => case KbLeave => case KbKey =>
    case PtEnter => case PtLeave => case PtMotion => case PtButton =>
  }

  /** Setting or clearing a flag decides that flag and keeps every other one. */
  lemma WithFlagSpec(mask: Mask, flag: Flag, present: bool)
    ensures flag in WithFlag(mask, flag, present) <==> present
    ensures forall g :: g != flag ==> (g in WithFlag(mask, flag, present) <==> g in mask)
  {
  }

  /** Updating one slot and its flag keeps the mask consistent. */
  lemma {:induction false} WithFlagConsistent(mask: Mask, wd: WdDelegate, kb: KbDelegate, pt: PtDelegate,
                                              wd': WdDelegate, kb': KbDelegate, pt': PtDelegate, flag: Flag)
    requires Consistent(mask, wd, kb, pt)
    requires forall g :: g != flag ==> SlotOf(g, wd', kb', pt') == SlotOf(g, wd, kb, pt)
    ensures Consistent(WithFlag(mask, flag, SlotOf(flag, wd', kb', pt').Some?), wd', kb', pt')
  {
    var m := WithFlag(mask, flag, SlotOf(flag, wd', kb', pt').Some?);
    forall g ensures g in m <==> g in MaskOf(wd', kb', pt') {
      if g != flag {
        assert SlotOf(g, wd', kb', pt') == SlotOf(g, wd, kb, pt);
      }
    }
  }

  /** Updating a group sets each of its flags iff the callback is present
      and keeps every flag outside the group. */
  lemma WdMaskSpec(mask: Mask, close: bool, resize: bool)
    ensures WdMask(mask, close, resize) * WdGroup == (if close then {WdClose} else {}) + (if resize then {WdResize} else {})
    ensures WdMask(mask, close, resize) - WdGroup == mask - WdGroup
  {
  }

  lemma KbMaskSpec(mask: Mask, enter: bool, leave: bool, key: bool)
    ensures KbMask(mask, enter, leave, key) * KbGroup
         == (if enter then {KbEnter} else {}) + (if leave then {KbLeave} else {}) + (if key then {KbKey} else {})
    ensures KbMask(mask, enter, leave, key) - KbGroup == mask - KbGroup
  {
  }

  lemma PtMaskSpec(mask: Mask, enter: bool, leave: bool, motion: bool, button: bool)
    ensures PtMask(mask, enter, leave, motion, button) * PtGroup
         == (if enter then {PtEnter} else {}) + (if leave then {PtLeave} else {})
          + (if motion then {PtMotion} else {}) + (if button then {PtButton} else {})
    ensures PtMask(mask, enter, leave, motion, button) - PtGroup == mask - PtGroup
  {
  }

  /** Setting the same group twice gives the same mask as setting it once. */
  lemma GroupMasksIdempotent(mask: Mask, a: bool, b: bool, c: bool, d: bool)
    ensures WdMask(WdMask(mask, a, b), a, b) == WdMask(mask, a, b)
    ensures KbMask(KbMask(mask, a, b, c), a, b, c) == KbMask(mask, a, b, c)
    ensures PtMask(PtMask(mask, a, b, c, d), a, b, c, d) == PtMask(mask, a, b, c, d)
  {
  }

  class Delegate {
    var mask: Mask
    var wdDeleg: WdDelegate
    var kbDeleg: KbDelegate
    var ptDeleg: PtDelegate

    ghost predicate Valid()
      reads this
    {
      Consistent(mask, wdDeleg, kbDeleg, ptDeleg)
    }

    /** A new delegate has no callbacks and an empty mask. */
    constructor ()
      ensures Valid() && mask == {}
      ensures wdDeleg == WdDelegate(None, None) && kbDeleg == KbDelegate(None, None, None)
      ensures ptDeleg == PtDelegate(None, None, None, None)
    {
      mask := {};
      wdDeleg := WdDelegate(None, None);
      kbDeleg := KbDelegate(None, None, None);
      ptDeleg := PtDelegate(None, None, None, None);
    }

    /** `set(const WdDelegate&)`: stores the delegate and updates the
        window flags one by one. */
    method SetWd(d: WdDelegate)
      modifies this
      ensures wdDeleg == d && kbDeleg == old(kbDeleg) && ptDeleg == old(ptDeleg)
      ensures mask == WdMask(old(mask), d.close.Some?, d.resize.Some?)
      ensures old(Valid()) ==> Valid()
    {
      ghost var m0, wd0 := mask, wdDeleg;
      wdDeleg := d;
      mask := WithFlag(mask, WdClose, wdDeleg.close.Some?);
      mask := WithFlag(mask, WdResize, wdDeleg.resize.Some?);
      if Consistent(m0, wd0, kbDeleg, ptDeleg) {
        WithFlagConsistent(m0, wd0, kbDeleg, ptDeleg, wd0.(close := d.close), kbDeleg, ptDeleg, WdClose);
        WithFlagConsistent(WithFlag(m0, WdClose, d.close.Some?), wd0.(close := d.close), kbDeleg, ptDeleg, d, kbDeleg, ptDeleg, WdResize);
      }
    }

    /** `set(const KbDelegate&)`. */
    method SetKb(d: KbDelegate)
      modifies this
      ensures kbDeleg == d && wdDeleg == old(wdDeleg) && ptDeleg == old(ptDeleg)
      ensures mask == KbMask(old(mask), d.enter.Some?, d.leave.Some?, d.key.Some?)
      ensures old(Valid()) ==> Valid()
    {
      ghost var m0, kb0 := mask, kbDeleg;
      kbDeleg := d;
      mask := WithFlag(mask, KbEnter, kbDeleg.enter.Some?);
      mask := WithFlag(mask, KbLeave, kbDeleg.leave.Some?);
      mask := WithFlag(mask, KbKey, kbDeleg.key.Some?);
      if Consistent(m0, wdDeleg, kb0, ptDeleg) {
        WithFlagConsistent(m0, wdDeleg, kb0, ptDeleg, wdDeleg, kb0.(enter := d.enter), ptDeleg, KbEnter);
        WithFlagConsistent(WithFlag(m0, KbEnter, d.enter.Some?), wdDeleg, kb0.(enter := d.enter), ptDeleg, wdDeleg, kb0.(enter := d.enter, leave := d.leave), ptDeleg, KbLeave);
        WithFlagConsistent(WithFlag(WithFlag(m0, KbEnter, d.enter.Some?), KbLeave, d.leave.Some?), wdDeleg, kb0.(enter := d.enter, leave := d.leave), ptDeleg, wdDeleg, d, ptDeleg, KbKey);
      }
    }

    /** `set(const PtDelegate&)`. */
    method SetPt(d: PtDelegate)
      modifies this
      ensures ptDeleg == d && wdDeleg == old(wdDeleg) && kbDeleg == old(kbDeleg)
      ensures mask == PtMask(old(mask), d.enter.Some?, d.leave.Some?, d.motion.Some?, d.button.Some?)
      ensures old(Valid()) ==> Valid()
    {
      ghost var m0, pt0 := mask, ptDeleg;
      ptDeleg := d;
      mask := WithFlag(mask, PtEnter, ptDeleg.enter.Some?);
      mask := WithFlag(mask, PtLeave, ptDeleg.leave.Some?);
      mask := WithFlag(mask, PtMotion, ptDeleg.motion.Some?);
      mask := WithFlag(mask, PtButton, ptDeleg.button.Some?);
      if Consistent(m0, wdDeleg, kbDeleg, pt0) {
        WithFlagConsistent(m0, wdDeleg, kbDeleg, pt0, wdDeleg, kbDeleg, pt0.(enter := d.enter), PtEnter);
        WithFlagConsistent(WithFlag(m0, PtEnter, d.enter.Some?), wdDeleg, kbDeleg, pt0.(enter := d.enter), wdDeleg, kbDeleg, pt0.(enter := d.enter, leave := d.leave), PtLeave);
        WithFlagConsistent(WithFlag(WithFlag(m0, PtEnter, d.enter.Some?), PtLeave, d.leave.Some?), wdDeleg, kbDeleg, pt0.(enter := d.enter, leave := d.leave), wdDeleg, kbDeleg, pt0.(enter := d.enter, leave := d.leave, motion := d.motion), PtMotion);
        WithFlagConsistent(WithFlag(WithFlag(WithFlag(m0, PtEnter, d.enter.Some?), PtLeave, d.leave.Some?), PtMotion, d.motion.Some?), wdDeleg, kbDeleg, pt0.(enter := d.enter, leave := d.leave, motion := d.motion), wdDeleg, kbDeleg, d, PtButton);
      }
    }
  }

  /** The window system's global state: the one delegate instance that the
      registration functions update and `delegate()` returns. */
  class Ws {
    const deleg: Delegate

    constructor ()
      ensures fresh(deleg) && deleg.Valid() && deleg.mask == {}
      ensures deleg.wdDeleg == WdDelegate(None, None) && deleg.kbDeleg == KbDelegate(None, None, None)
      ensures deleg.ptDeleg == PtDelegate(None, None, None, None)
    {
      deleg := new Delegate();
    }

    /** `delegate()`: always the same instance. */
    function GetDelegate(): (r: Delegate)
      ensures r == deleg
    {
      deleg
    }

    /** `onWdClose`: stores the callback and sets or clears its flag. */
    method OnWdClose(fn: Slot)
      modifies deleg
      ensures deleg.wdDeleg == old(deleg.wdDeleg).(close := fn)
      ensures deleg.kbDeleg == old(deleg.kbDeleg) && deleg.ptDeleg == old(deleg.ptDeleg)
      ensures deleg.mask == WithFlag(old(deleg.mask), WdClose, fn.Some?)
      ensures old(deleg.Valid()) ==> deleg.Valid()
    {
      deleg.wdDeleg := deleg.wdDeleg.(close := fn);
      deleg.mask := WithFlag(deleg.mask, WdClose, fn.Some?);
      if old(deleg.Valid()) {
        WithFlagConsistent(old(deleg.mask), old(deleg.wdDeleg), old(deleg.kbDeleg), old(deleg.ptDeleg),
                           deleg.wdDeleg, deleg.kbDeleg, deleg.ptDeleg, WdClose);
      }
    }

    /** `onWdResize`. */
    method OnWdResize(fn: Slot)
      modifies deleg
      ensures deleg.wdDeleg == old(deleg.wdDeleg).(resize := fn)
      ensures deleg.kbDeleg == old(deleg.kbDeleg) && deleg.ptDeleg == old(deleg.ptDeleg)
      ensures deleg.mask == WithFlag(old(deleg.mask), WdResize, fn.Some?)
      ensures old(deleg.Valid()) ==> deleg.Valid()
    {
      deleg.wdDeleg := deleg.wdDeleg.(resize := fn);
      deleg.mask := WithFlag(deleg.mask, WdResize, fn.Some?);
      if old(deleg.Valid()) {
        WithFlagConsistent(old(deleg.mask), old(deleg.wdDeleg), old(deleg.kbDeleg), old(deleg.ptDeleg),
                           deleg.wdDeleg, deleg.kbDeleg, deleg.ptDeleg, WdResize);
      }
    }

    /** `onKbEnter`. */
    method OnKbEnter(fn: Slot)
      modifies deleg
      ensures deleg.kbDeleg == old(deleg.kbDeleg).(enter := fn)
      ensures deleg.wdDeleg == old(deleg.wdDeleg) && deleg.ptDeleg == old(deleg.ptDeleg)
      ensures deleg.mask == WithFlag(old(deleg.mask), KbEnter, fn.Some?)
      ensures old(deleg.Valid()) ==> deleg.Valid()
    {
      deleg.kbDeleg := deleg.kbDeleg.(enter := fn);
      deleg.mask := WithFlag(deleg.mask, KbEnter, fn.Some?);
      if old(deleg.Valid()) {
        WithFlagConsistent(old(deleg.mask), old(deleg.wdDeleg), old(deleg.kbDeleg), old(deleg.ptDeleg),
                           deleg.wdDeleg, deleg.kbDeleg, deleg.ptDeleg, KbEnter);
      }
    }

    /** `onKbLeave`. */
    method OnKbLeave(fn: Slot)
      modifies deleg
      ensures deleg.kbDeleg == old(deleg.kbDeleg).(leave := fn)
      ensures deleg.wdDeleg == old(deleg.wdDeleg) && deleg.ptDeleg == old(deleg.ptDeleg)
      ensures deleg.mask == WithFlag(old(deleg.mask), KbLeave, fn.Some?)
      ensures old(deleg.Valid()) ==> deleg.Valid()
    {
      deleg.kbDeleg := deleg.kbDeleg.(leave := fn);
      deleg.mask := WithFlag(deleg.mask, KbLeave, fn.Some?);
      if old(deleg.Valid()) {
        WithFlagConsistent(old(deleg.mask), old(deleg.wdDeleg), old(deleg.kbDeleg), old(deleg.ptDeleg),
                           deleg.wdDeleg, deleg.kbDeleg, deleg.ptDeleg, KbLeave);
      }
    }

    /** `onKbKey`. */
    method OnKbKey(fn: Slot)
      modifies deleg
      ensures deleg.kbDeleg == old(deleg.kbDeleg).(key := fn)
      ensures deleg.wdDeleg == old(deleg.wdDeleg) && deleg.ptDeleg == old(deleg.ptDeleg)
      ensures deleg.mask == WithFlag(old(deleg.mask), KbKey, fn.Some?)
      ensures old(deleg.Valid()) ==> deleg.Valid()
    {
      deleg.kbDeleg := deleg.kbDeleg.(key := fn);
      deleg.mask := WithFlag(deleg.mask, KbKey, fn.Some?);
      if old(deleg.Valid()) {
        WithFlagConsistent(old(deleg.mask), old(deleg.wdDeleg), old(deleg.kbDeleg), old(deleg.ptDeleg),
                           deleg.wdDeleg, deleg.kbDeleg, deleg.ptDeleg, KbKey);
      }
    }

    /** `onPtEnter`. */
    method OnPtEnter(fn: Slot)
      modifies deleg
      ensures deleg.ptDeleg == old(deleg.ptDeleg).(enter := fn)
      ensures deleg.wdDeleg == old(deleg.wdDeleg) && deleg.kbDeleg == old(deleg.kbDeleg)
      ensures deleg.mask == WithFlag(old(deleg.mask), PtEnter, fn.Some?)
      ensures old(deleg.Valid()) ==> deleg.Valid()
    {
      deleg.ptDeleg := deleg.ptDeleg.(enter := fn);
      deleg.mask := WithFlag(deleg.mask, PtEnter, fn.Some?);
      if old(deleg.Valid()) {
        WithFlagConsistent(old(deleg.mask), old(deleg.wdDeleg), old(deleg.kbDeleg), old(deleg.ptDeleg),
                           deleg.wdDeleg, deleg.kbDeleg, deleg.ptDeleg, PtEnter);
      }
    }

    /** `onPtLeave`. */
    method OnPtLeave(fn: Slot)
      modifies deleg
      ensures deleg.ptDeleg == old(deleg.ptDeleg).(leave := fn)
      ensures deleg.wdDeleg == old(deleg.wdDeleg) && deleg.kbDeleg == old(deleg.kbDeleg)
      ensures deleg.mask == WithFlag(old(deleg.mask), PtLeave, fn.Some?)
      ensures old(deleg.Valid()) ==> deleg.Valid()
    {
      deleg.ptDeleg := deleg.ptDeleg.(leave := fn);
      deleg.mask := WithFlag(deleg.mask, PtLeave, fn.Some?);
      if old(deleg.Valid()) {
        WithFlagConsistent(old(deleg.mask), old(deleg.wdDeleg), old(deleg.kbDeleg), old(deleg.ptDeleg),
                           deleg.wdDeleg, deleg.kbDeleg, deleg.ptDeleg, PtLeave);
      }
    }

    /** `onPtMotion`. */
    method OnPtMotion(fn: Slot)
      modifies deleg
      ensures deleg.ptDeleg == old(deleg.ptDeleg).(motion := fn)
      ensures deleg.wdDeleg == old(deleg.wdDeleg) && deleg.kbDeleg == old(deleg.kbDeleg)
      ensures deleg.mask == WithFlag(old(deleg.mask), PtMotion, fn.Some?)
      ensures old(deleg.Valid()) ==> deleg.Valid()
    {
      deleg.ptDeleg := deleg.ptDeleg.(motion := fn);
      deleg.mask := WithFlag(deleg.mask, PtMotion, fn.Some?);
      if old(deleg.Valid()) {
        WithFlagConsistent(old(deleg.mask), old(deleg.wdDeleg), old(deleg.kbDeleg), old(deleg.ptDeleg),
                           deleg.wdDeleg, deleg.kbDeleg, deleg.ptDeleg, PtMotion);
      }
    }

    /** `onPtButton`. */
    method OnPtButton(fn: Slot)
      modifies deleg
      ensures deleg.ptDeleg == old(deleg.ptDeleg).(button := fn)
      ensures deleg.wdDeleg == old(deleg.wdDeleg) && deleg.kbDeleg == old(deleg.kbDeleg)
      ensures deleg.mask == WithFlag(old(deleg.mask), PtButton, fn.Some?)
      ensures old(deleg.Valid()) ==> deleg.Valid()
    {
      deleg.ptDeleg := deleg.ptDeleg.(button := fn);
      deleg.mask := WithFlag(deleg.mask, PtButton, fn.Some?);
      if old(deleg.Valid()) {
        WithFlagConsistent(old(deleg.mask), old(deleg.wdDeleg), old(deleg.kbDeleg), old(deleg.ptDeleg),
                           deleg.wdDeleg, deleg.kbDeleg, deleg.ptDeleg, PtButton);
      }
    }
  }

  /** Registering one callback at a time ends in the same state as setting
      whole groups, and the mask then lists exactly those callbacks. */
  method RegistrationScenario(f: Callback, g: Callback, h: Callback, k: Callback) returns (ws: Ws)
    ensures ws.GetDelegate().Valid()
    ensures ws.GetDelegate().mask == MaskOf(WdDelegate(None, None), KbDelegate(Some(f), None, Some(g)),
                                            PtDelegate(None, None, None, Some(h)))
    ensures ws.GetDelegate().mask == {KbEnter, KbKey, PtButton}
    ensures ws.GetDelegate().wdDeleg == WdDelegate(None, None)
  {
    ws := new Ws();
    ws.OnKbEnter(Some(f));
    ws.OnKbKey(Some(g));
    ws.OnPtButton(Some(h));
    ws.OnWdClose(Some(k));
    ws.OnWdClose(None);
    var other := new Delegate();
    other.SetKb(KbDelegate(Some(f), None, Some(g)));
    other.SetPt(PtDelegate(None, None, None, Some(h)));
    assert other.mask == ws.deleg.mask;
    forall fl ensures fl in ws.deleg.mask <==> fl in {KbEnter, KbKey, PtButton} {
      InAllFlags(fl);
    }
  }
}
