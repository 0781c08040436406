/**
 The device table of the Windows simulation as one thread sees it, and the loop
 that opens devices until one refuses. `ClaimProtocol` covers what happens when
 several threads are in open and close at once.
 */
module DeviceTable {
  import opened ClaimProtocol
  import opened Wrappers

  class Devices {
    const active: array<bool>
    /** Live handles and the devices they are for. */
    var handles: map<Handle, nat>
    var nextHandle: Handle

    ghost predicate Valid()
      reads this, active
    {
      && active.Length == MAX_DEVICES
      && (forall h :: h in handles ==> h < nextHandle && handles[h] < MAX_DEVICES && active[handles[h]])
      && (forall h, g :: h in handles && g in handles && h != g ==> handles[h] != handles[g])
      && (forall d :: 0 <= d < MAX_DEVICES && active[d] ==> d in handles.Values)
    }

    constructor ()
      ensures Valid() && fresh(active) && handles == map[] && nextHandle == 0
      ensures forall d :: 0 <= d < MAX_DEVICES ==> !active[d]
    {
      active := new bool[MAX_DEVICES](_ => false);
      handles, nextHandle := map[], 0;
    }

    /** Whether open would hand out device `d`, given memory. */
    ghost predicate Openable(d: int)
      reads active
      requires active.Length == MAX_DEVICES
    {
      0 <= d < MAX_DEVICES && !active[d]
    }

    method Open(d: int, memory: bool) returns (r: OpenResult)
      requires Valid()
      modifies this, active
      ensures Valid()
      ensures r == if !(0 <= d < MAX_DEVICES) then ParamError
                   else if old(active[d]) then Busy
                   else if !memory then NoMemory
                   else Opened(old(nextHandle))
      ensures r.Opened? ==> handles == old(handles)[r.handle := d] && nextHandle == old(nextHandle) + 1
      ensures !r.Opened? ==> handles == old(handles) && nextHandle == old(nextHandle)
      ensures forall h :: h in old(handles) ==> h in handles && handles[h] == old(handles)[h]
      ensures forall e :: 0 <= e < MAX_DEVICES ==> active[e] == (old(active[e]) || (r.Opened? && e == d))
    {
      if d < 0 || d >= MAX_DEVICES {
        return ParamError;
      }
      if active[d] {
        return Busy;
      }
      active[d] := true;
      if !memory {
        active[d] := false;
        return NoMemory;
      }
      r := Opened(nextHandle);
      handles := handles[nextHandle := d];
      nextHandle := nextHandle + 1;
      KeepsValues(old(handles), old(nextHandle), d);
    }

    method Close(h: Handle)
      requires Valid() && h in handles
      modifies this, active
      ensures Valid() && handles == old(handles) - {h} && nextHandle == old(nextHandle)
      ensures forall e :: 0 <= e < MAX_DEVICES ==> active[e] == (old(active[e]) && e != old(handles)[h])
    {
      var d := handles[h];
      active[d] := false;
      handles := handles - {h};
      DropsValue(old(handles), h);
    }

    /** `got[i]` is a live handle of device i. */
    ghost predicate Holding(got: seq<Handle>)
      reads this
    {
      forall i :: 0 <= i < |got| ==> got[i] in handles && handles[got[i]] == i
    }

    /** Opens the device after those in `got`. */
    method OpenNext(got: seq<Handle>, memory: bool) returns (ok: bool, next: seq<Handle>)
      requires Valid() && Holding(got)
      modifies this, active
      ensures Valid() && Holding(next)
      ensures ok <==> old(Openable(|got|)) && memory
      ensures |next| == |got| + (if ok then 1 else 0) && got <= next
      ensures forall e :: 0 <= e < MAX_DEVICES ==> active[e] == (old(active[e]) || (ok && e == |got|))
    {
      var r := Open(|got|, memory);
      ok := r.Opened?;
      next := if r.Opened? then got + [r.handle] else got;
    }

    /** Opens 0, 1, 2, ... up to the first device that refuses, and keeps what it got. */
    method OpenAll(max: int, memory: int -> bool) returns (got: seq<Handle>)
      requires Valid()
      modifies this, active
      ensures Valid()
      ensures |got| <= (if max < 0 then 0 else max) && |got| <= MAX_DEVICES
      ensures forall i :: 0 <= i < |got| ==>
                && got[i] in handles && handles[got[i]] == i
                && old(Openable(i)) && memory(i)
      ensures |got| < max ==> !(old(Openable(|got|)) && memory(|got|))
      ensures forall e :: 0 <= e < MAX_DEVICES ==> active[e] == (old(active[e]) || e < |got|)
    {
      got := [];
      while |got| < max
        invariant Valid() && |got| <= MAX_DEVICES
        invariant |got| <= (if max < 0 then 0 else max)
        invariant Holding(got)
        invariant forall i :: 0 <= i < |got| ==> old(Openable(i)) && memory(i)
        invariant forall e :: 0 <= e < MAX_DEVICES ==> active[e] == (old(active[e]) || e < |got|)
        decreases max - |got|
      {
        var ok, next := OpenNext(got, memory(|got|));
        if !ok {
          break;
        }
        got := next;
      }
    }
  }

  lemma KeepsValues(m: map<Handle, nat>, h: Handle, d: nat)
    requires h !in m
    ensures m[h := d].Values == m.Values + {d}
  {
    assert m[h := d][h] == d;
    forall e | e in m.Values ensures e in m[h := d].Values {
      var g :| g in m && m[g] == e;
      assert m[h := d][g] == e;
    }
  }

  lemma DropsValue(m: map<Handle, nat>, h: Handle)
    requires h in m
    ensures forall e :: e in m.Values && e != m[h] ==> e in (m - {h}).Values
  {
    forall e | e in m.Values && e != m[h] ensures e in (m - {h}).Values {
      var g :| g in m && m[g] == e;
      assert (m - {h})[g] == e;
    }
  }
}
