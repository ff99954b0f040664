/** The allowlist and the watch sets, each with its copy on disk (store.rs). */
module Store {
  import opened Prelude

  /** A value in memory and the file it is written to. */
  datatype Disk<T> = Disk(mem: T, file: T)

  type Sets = map<string, seq<string>>

  function Written<T>(d: Disk<T>, mem: T, written: bool): Disk<T> {
    Disk(mem, if written then mem else d.file)
  }

  function Replaced(sets: Sets, key: string, addresses: seq<string>): Sets {
    if addresses == [] then sets - {key} else sets[key := addresses]
  }

  class Allowlist {
    var wallets: set<string>
    var file: set<string>

    ghost function State(): Disk<set<string>>
      reads this
    {
      Disk(wallets, file)
    }

    constructor (file: set<string>)
      ensures State() == Disk(file, file)
    {
      wallets := file;
      this.file := file;
    }

    static method Load(read: FileRead<set<string>>) returns (r: Option<Allowlist>)
      ensures r.None? <==> read.Unreadable?
      ensures r.Some? ==> fresh(r.value)
      ensures read.Found? ==> r.Some? && r.value.State() == Disk(read.value, read.value)
      ensures read.Missing? ==> r.Some? && r.value.State() == Disk({}, {})
    {
      if read.Unreadable? {
        return None;
      }
      var s := new Allowlist(if read.Found? then read.value else {});
      r := Some(s);
    }

    method IsPaired(key: string) returns (yes: bool)
      ensures yes <==> key in wallets
    {
      yes := key in wallets;
    }

    /** `written` tells whether the file is written and renamed; `ok` is the result reported. */
    method Add(key: string, written: bool) returns (ok: bool)
      modifies this
      ensures State() == Written(old(State()), old(wallets) + {key}, written)
      ensures wallets == old(wallets) + {key} && file == if written then wallets else old(file)
      ensures ok == written
    {
      wallets := wallets + {key};
      if written {
        file := wallets;
      }
      ok := written;
    }

    /** None is a write error; Some(b) tells whether the key was there. Nothing is written if it was not. */
    method Remove(key: string, written: bool) returns (r: Option<bool>)
      modifies this
      ensures key in old(wallets) ==> State() == Written(old(State()), old(wallets) - {key}, written)
      ensures key !in old(wallets) ==> State() == old(State())
      ensures wallets == old(wallets) - {key} && file == if key in old(wallets) && written then wallets else old(file)
      ensures r == if key in old(wallets) && !written then None else Some(key in old(wallets))
    {
      var removed := key in wallets;
      wallets := wallets - {key};
      if removed {
        if !written {
          return None;
        }
        file := wallets;
      }
      assert key !in old(wallets) ==> wallets == old(wallets);
      return Some(removed);
    }
  }

  class WatchStore {
    var sets: Sets
    var file: Sets

    ghost function State(): Disk<Sets>
      reads this
    {
      Disk(sets, file)
    }

    constructor (file: Sets)
      ensures State() == Disk(file, file)
    {
      sets := file;
      this.file := file;
    }

    static method Load(read: FileRead<Sets>) returns (r: Option<WatchStore>)
      ensures r.None? <==> read.Unreadable?
      ensures r.Some? ==> fresh(r.value)
      ensures read.Found? ==> r.Some? && r.value.State() == Disk(read.value, read.value)
      ensures read.Missing? ==> r.Some? && r.value.State() == Disk(map[], map[])
    {
      if read.Unreadable? {
        return None;
      }
      var s := new WatchStore(if read.Found? then read.value else map[]);
      r := Some(s);
    }

    /** None is a write error. */
    method Replace(key: string, addresses: seq<string>, written: bool) returns (n: Option<nat>)
      modifies this
      ensures State() == Written(old(State()), Replaced(old(sets), key, addresses), written)
      ensures sets == if |addresses| == 0 then old(sets) - {key} else old(sets)[key := addresses]
      ensures file == if written then sets else old(file)
      ensures n == if written then Some(|addresses|) else None
    {
      if addresses == [] {
        sets := sets - {key};
      } else {
        sets := sets[key := addresses];
      }
      if !written {
        return None;
      }
      file := sets;
      return Some(|addresses|);
    }

    method RemoveWallet(key: string, written: bool) returns (ok: bool)
      modifies this
      ensures sets == old(sets) - {key}
      ensures file == if key in old(sets) && written then sets else old(file)
    {
      ok := true;
      if key in sets {
        sets := sets - {key};
        ok := written;
        if written {
          file := sets;
        }
      }
    }

    method Snapshot() returns (s: Sets)
      ensures s == sets
    {
      s := sets;
    }
  }
}
