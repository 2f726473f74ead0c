/** The ASCOM profile store that LocalSwitch.Save writes into, seen only
    through IProfile.WriteValue(driverId, name, subKey, value), the argument
    order the calls in Save use. The store is an external sink; the model
    records the writes it receives, in order. */
module Profiles {
  import opened Wrappers

  /** The string handed to WriteValue. A number formatted with the invariant
      culture is kept abstract as the real it renders. */
  datatype Setting = Text(text: string) | Number(number: real)

  datatype Entry = Entry(driverId: string, name: string, subKey: string, setting: Setting)

  class Profile {
    /** Every WriteValue call received so far, oldest first. */
    var written: seq<Entry>

    constructor ()
      ensures written == []
    {
      written := [];
    }

    method WriteValue(driverId: string, name: string, subKey: string, setting: Setting)
      modifies this
      ensures written == old(written) + [Entry(driverId, name, subKey, setting)]
    {
      written := written + [Entry(driverId, name, subKey, setting)];
    }
  }

  /** What the store holds under (driverId, subKey, name) after the writes in
      log: the most recent write to that key wins. */
  function Lookup(log: seq<Entry>, driverId: string, subKey: string, name: string): Option<Setting>
  {
    if log == [] then None
    else
      var last := log[|log| - 1];
      if Targets(last, driverId, subKey, name) then Some(last.setting)
      else Lookup(log[..|log| - 1], driverId, subKey, name)
  }

  predicate Targets(e: Entry, driverId: string, subKey: string, name: string)
  {
    e.driverId == driverId && e.subKey == subKey && e.name == name
  }

  /** Lookup finds nothing exactly when no write targets the key, and what it
      finds was written to that key. */
  lemma {:induction false} LookupSpec(log: seq<Entry>, driverId: string, subKey: string, name: string)
    ensures var r := Lookup(log, driverId, subKey, name);
      (r == None <==> forall i :: 0 <= i < |log| ==> !Targets(log[i], driverId, subKey, name)) &&
      (r.Some? ==> exists i :: 0 <= i < |log| && Targets(log[i], driverId, subKey, name) && log[i].setting == r.value)
  {
    if log != [] {
      var init := log[..|log| - 1];
      LookupSpec(init, driverId, subKey, name);
      assert forall i :: 0 <= i < |init| ==> init[i] == log[i];
      if !Targets(log[|log| - 1], driverId, subKey, name) {
        var r := Lookup(init, driverId, subKey, name);
        if r.Some? {
          var i :| 0 <= i < |init| && Targets(init[i], driverId, subKey, name) && init[i].setting == r.value;
          assert log[i] == init[i];
        }
      }
    }
  }

  /** Writes appended after a key's last write elsewhere do not hide it, and
      the last write to a key is what Lookup returns. */
  lemma {:induction false} LookupLastWrite(log: seq<Entry>, tail: seq<Entry>, e: Entry)
    requires forall i :: 0 <= i < |tail| ==> !Targets(tail[i], e.driverId, e.subKey, e.name)
    ensures Lookup(log + [e] + tail, e.driverId, e.subKey, e.name) == Some(e.setting)
  {
    if tail == [] {
      assert log + [e] + tail == log + [e];
      assert (log + [e])[..|log + [e]| - 1] == log;
    } else {
      var whole := log + [e] + tail;
      var init := tail[..|tail| - 1];
      assert whole[|whole| - 1] == tail[|tail| - 1];
      assert whole[..|whole| - 1] == log + [e] + init;
      LookupLastWrite(log, init, e);
    }
  }

  /** An entry of a batch appended to the log is what Lookup finds under its
      key, provided no later entry of the batch writes the same key. */
  lemma LookupAppendedAt(log: seq<Entry>, batch: seq<Entry>, i: nat)
    requires i < |batch|
    requires forall j :: i < j < |batch| ==> !Targets(batch[j], batch[i].driverId, batch[i].subKey, batch[i].name)
    ensures Lookup(log + batch, batch[i].driverId, batch[i].subKey, batch[i].name) == Some(batch[i].setting)
  {
    var tail := batch[i + 1..];
    assert log + batch == (log + batch[..i]) + [batch[i]] + tail;
    assert forall j :: 0 <= j < |tail| ==> tail[j] == batch[i + 1 + j];
    LookupLastWrite(log + batch[..i], tail, batch[i]);
  }

  /** Decimal digits of n, most significant first, as Int32.ToString prints them. */
  function NatToString(n: nat): (s: string)
    ensures |s| > 0
    ensures forall i :: 0 <= i < |s| ==> '0' <= s[i] <= '9'
  {
    if n < 10 then [DigitChar(n)] else NatToString(n / 10) + [DigitChar(n % 10)]
  }

  function DigitChar(d: nat): (c: char)
    requires d < 10
    ensures '0' <= c <= '9'
  {
    ['0', '1', '2', '3', '4', '5', '6', '7', '8', '9'][d]
  }

  /** id.ToString() for an int: a leading '-' for a negative number. */
  function IntToString(i: int): (s: string)
    ensures IsIntText(s)
    ensures s[0] == '-' <==> i < 0
  {
    if i < 0 then "-" + NatToString(-i) else NatToString(i)
  }

  /** Reads back a string of decimal digits. */
  function ParseDigits(s: string): nat
    requires forall i :: 0 <= i < |s| ==> '0' <= s[i] <= '9'
  {
    if s == [] then 0
    else ParseDigits(s[..|s| - 1]) * 10 + ((s[|s| - 1] as int) - ('0' as int))
  }

  function ParseInt(s: string): (i: int)
    requires IsIntText(s)
  {
    if s[0] == '-' then 0 - ParseDigits(s[1..]) as int else ParseDigits(s)
  }

  lemma {:induction false} ParseNatToString(n: nat)
    ensures ParseDigits(NatToString(n)) == n
  {
    var s := NatToString(n);
    if n >= 10 {
      assert s[..|s| - 1] == NatToString(n / 10);
      ParseNatToString(n / 10);
    }
  }

  /** What ParseInt needs of its input. */
  predicate IsIntText(s: string)
  {
    |s| > 0 && (s[0] == '-' || '0' <= s[0] <= '9') && forall k :: 1 <= k < |s| ==> '0' <= s[k] <= '9'
  }

  /** Printing an int and reading it back gives the int. */
  lemma IntToStringRoundTrip(i: int)
    ensures IsIntText(IntToString(i)) && ParseInt(IntToString(i)) == i
  {
    var s := IntToString(i);
    if i < 0 {
      var digits := NatToString(-i);
      assert s == "-" + digits;
      assert s[1..] == digits;
      ParseNatToString(-i);
    } else {
      ParseNatToString(i);
    }
  }

  /** Different ints print differently. */
  lemma IntToStringInjective(a: int, b: int)
    ensures IntToString(a) == IntToString(b) ==> a == b
  {
    IntToStringRoundTrip(a);
    IntToStringRoundTrip(b);
  }
}
