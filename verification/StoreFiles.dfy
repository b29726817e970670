/** One call of Save or Load at a time (internal/state/store.go), system call by system
    call. What several calls and a crash may do to each other is the Store module. */
module StoreFiles {
  import opened Bytes
  import LogStream
  import Store

  datatype Failure = SystemFailed | NotDecodable

  /** The state directory. Any system call may fail; a failed write may leave part of the
      data, a failed rename leaves both names alone. */
  class Directory {
    var plants: map<int, Store.File>
    var temps: map<nat, Store.File>
    /** How many calls failed. */
    ghost var failures: nat

    constructor ()
      ensures plants == map[] && temps == map[] && failures == 0
    {
      plants, temps, failures := map[], map[], 0;
    }

    method CreateTemp(name: nat) returns (ok: bool)
      requires name !in temps
      modifies this`temps, this`failures
      ensures failures == old(failures) + if ok then 0 else 1
      ensures temps == if ok then old(temps)[name := Store.File(Store.Torn, false)] else old(temps)
    {
      ok := *;
      failures := failures + if ok then 0 else 1;
      if ok {
        temps := temps[name := Store.File(Store.Torn, false)];
      }
    }

    /** Chmod and Close: calls that change no content. */
    method Call() returns (ok: bool)
      modifies this`failures
      ensures failures == old(failures) + if ok then 0 else 1
    {
      ok := *;
      failures := failures + if ok then 0 else 1;
    }

    method Write(temp: nat, content: Store.Content) returns (ok: bool)
      requires temp in temps
      modifies this`temps, this`failures
      ensures failures == old(failures) + if ok then 0 else 1
      ensures temps == old(temps)[temp := Store.File(if ok then content else Store.Torn, false)]
    {
      ok := *;
      failures := failures + if ok then 0 else 1;
      temps := temps[temp := Store.File(if ok then content else Store.Torn, false)];
    }

    method Sync(temp: nat) returns (ok: bool)
      requires temp in temps
      modifies this`temps, this`failures
      ensures failures == old(failures) + if ok then 0 else 1
      ensures temps == if ok then old(temps)[temp := old(temps)[temp].(synced := true)] else old(temps)
    {
      ok := *;
      failures := failures + if ok then 0 else 1;
      if ok {
        temps := temps[temp := temps[temp].(synced := true)];
      }
    }

    method Rename(temp: nat, plant: int) returns (ok: bool)
      requires temp in temps
      modifies this
      ensures failures == old(failures) + if ok then 0 else 1
      ensures ok ==> plants == old(plants)[plant := old(temps)[temp]] && temps == old(temps) - {temp}
      ensures !ok ==> plants == old(plants) && temps == old(temps)
    {
      ok := *;
      failures := failures + if ok then 0 else 1;
      if ok {
        plants, temps := plants[plant := temps[temp]], temps - {temp};
      }
    }

    method Remove(temp: nat) returns (ok: bool)
      modifies this`temps, this`failures
      ensures failures == old(failures) + if ok then 0 else 1
      ensures temps == if ok then old(temps) - {temp} else old(temps)
    {
      ok := *;
      failures := failures + if ok then 0 else 1;
      if ok {
        temps := temps - {temp};
      }
    }

    method ReadFile(plant: int) returns (r: Result<Option<Store.Content>, Failure>)
      modifies this`failures
      ensures failures == old(failures) + if r.Ok? then 0 else 1
      ensures r.Ok? ==> r.value == if plant in plants then Some(plants[plant].content) else None
      ensures r.Err? ==> r.error == SystemFailed
    {
      var ok: bool := *;
      failures := failures + if ok then 0 else 1;
      if !ok {
        return Err(SystemFailed);
      }
      return Ok(if plant in plants then Some(plants[plant].content) else None);
    }
  }

  class StateStore {
    const dir: Directory

    constructor (dir: Directory)
      ensures this.dir == dir
    {
      this.dir := dir;
    }

    /** All or nothing: the plant file holds the whole new state, already on disk, or no
        plant file has changed. At most the temporary file stays behind, and only after a
        failure. */
    method Save(plant: int, value: Store.PlantState, name: nat) returns (ok: bool)
      requires name !in dir.temps
      modifies dir
      ensures dir.plants
              == if ok then old(dir.plants)[plant := Store.File(Store.Whole(value), true)] else old(dir.plants)
      ensures dir.temps - {name} == old(dir.temps)
      ensures ok ==> dir.temps == old(dir.temps)
      ensures ok <==> dir.failures == old(dir.failures)
      ensures old(dir.failures) <= dir.failures <= old(dir.failures) + 3
      ensures name in dir.temps ==> dir.failures >= old(dir.failures) + 2
    {
      ok := dir.CreateTemp(name);
      if !ok {
        return;
      }
      ok := Fill(value, name);
      if ok {
        ok := dir.Rename(name, plant);
      }
      if !ok {
        var removed := dir.Remove(name);
      }
    }

    /** Permissions, data, sync and close, in that order; after a failure only close. */
    method Fill(value: Store.PlantState, temp: nat) returns (ok: bool)
      requires temp in dir.temps
      modifies dir`temps, dir`failures
      ensures ok <==> dir.failures == old(dir.failures)
      ensures old(dir.failures) <= dir.failures <= old(dir.failures) + 2
      ensures temp in dir.temps && dir.temps - {temp} == old(dir.temps) - {temp}
      ensures ok ==> dir.temps[temp] == Store.File(Store.Whole(value), true)
    {
      ok := dir.Call();
      if ok {
        ok := dir.Write(temp, Store.Whole(value));
      }
      if ok {
        ok := dir.Sync(temp);
      }
      var closed := dir.Call();
      ok := ok && closed;
    }

    /** The zero value for a missing file, an error for one that cannot be read or decoded,
        else the state in the file. */
    method Load(plant: int) returns (r: Result<Store.PlantState, Failure>)
      modifies dir`failures
      ensures dir.failures == old(dir.failures) + if r == Err(SystemFailed) then 1 else 0
      ensures r.Ok? ==> (plant in dir.plants ==> dir.plants[plant].content == Store.Whole(r.value))
                        && (plant !in dir.plants ==> r.value == LogStream.PlantState(LogStream.Unset, 0))
      ensures r == Err(NotDecodable) ==> plant in dir.plants && dir.plants[plant].content == Store.Torn
    {
      var data := dir.ReadFile(plant);
      match data
      case Err(_) => return Err(SystemFailed);
      case Ok(None) => return Ok(Store.ZERO);
      case Ok(Some(Torn)) => return Err(NotDecodable);
      case Ok(Some(Whole(state))) => return Ok(state);
    }
  }

  /** A store starts without plant files, so no sequence of saves, failing or not, ever
      makes a Load report a torn file, and a Load after a successful Save returns it. */
  method SaveThenLoad(store: StateStore, plant: int, value: Store.PlantState, name: nat)
    returns (ok: bool, r: Result<Store.PlantState, Failure>)
    requires name !in store.dir.temps && forall p | p in store.dir.plants :: store.dir.plants[p].content.Whole?
    modifies store.dir
    ensures forall p | p in store.dir.plants :: store.dir.plants[p].content.Whole?
    ensures r.Err? ==> r.error == SystemFailed && store.dir.failures > old(store.dir.failures)
    ensures !ok ==> store.dir.failures > old(store.dir.failures)
    ensures ok && r.Ok? ==> r.value == value
    ensures !ok && r.Ok? ==>
              r.value == if plant in old(store.dir.plants) then old(store.dir.plants)[plant].content.state
                         else LogStream.PlantState(LogStream.Unset, 0)
  {
    ok := store.Save(plant, value, name);
    r := store.Load(plant);
  }
}
