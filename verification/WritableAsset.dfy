/** `OvstorageWritableAsset` as an object, over a disk that holds staging directories and a bridge that takes PUTs. */
module WritableAsset {
  import opened Basics
  import opened WriteSession

  /** The staging directories there are. */
  class Disk {
    var directories: set<nat>
    var next: nat

    ghost predicate Valid()
      reads this
    {
      forall d | d in directories :: d < next
    }

    method MakeDirectory() returns (d: nat)
      requires Valid()
      modifies this
      ensures Valid() && d !in old(directories) && directories == old(directories) + {d}
    {
      d := next;
      next := next + 1;
      directories := directories + {d};
    }

    method Remove(d: nat)
      requires Valid()
      modifies this`directories
      ensures Valid() && directories == old(directories) - {d}
    {
      directories := directories - {d};
    }
  }

  /** The PUTs that were made. */
  class Bridge {
    var puts: seq<Request>

    method Put(request: Request)
      modifies this
      ensures puts == old(puts) + [request]
    {
      puts := puts + [request];
    }
  }

  /** What the store answers when the object is materialized: its bytes and their validator, if it has one. */
  datatype Materialized = Found(bytes: seq<Byte>, etag: Option<Etag>) | Missing | Unavailable

  /** What `Open` meets: whether staging can be made, what is materialized, whether the route takes If-Match,
      whether the staged file can be seeded and whether it can be opened. */
  datatype Conditions = Conditions(staging: bool, materialized: Materialized, ifMatch: bool, seeded: bool, opens: bool)

  datatype Start = Start(seed: seq<Byte>, precondition: Precondition)

  /** What a session starts from; nothing when it cannot be opened. */
  function StartOf(mode: Mode, c: Conditions): Option<Start> {
    if !c.staging || !c.seeded || !c.opens then None
    else if mode == Replace then Some(Start([], Overwrite))
    else
      match c.materialized
      case Found(bytes, etag) =>
        if !c.ifMatch then Some(Start(bytes, Overwrite))
        else if etag == None then None
        else Some(Start(bytes, MatchEtag(etag.value)))
      case Missing => Some(Start([], FailIfPresent))
      case Unavailable => None
  }

  class Asset {
    const mode: Mode
    var closed: bool
    var writeFailed: bool
    var open: bool
    var data: seq<Byte>
    var precondition: Precondition
    var directory: Option<nat>

    ghost function Value(): Session
      reads this
    {
      Session(mode, closed, writeFailed, open, data, precondition, directory)
    }

    constructor (mode: Mode, seed: seq<Byte>, precondition: Precondition, directory: nat)
      ensures Value() == Session(mode, false, false, true, seed, precondition, Some(directory))
    {
      this.mode := mode;
      closed, writeFailed, open := false, false, true;
      data := seed;
      this.precondition := precondition;
      this.directory := Some(directory);
    }

    static method Open(disk: Disk, mode: Mode, c: Conditions) returns (asset: Asset?)
      requires disk.Valid()
      modifies disk
      ensures disk.Valid()
      ensures asset == null <==> StartOf(mode, c) == None
      ensures asset == null ==> disk.directories == old(disk.directories)
      ensures asset != null ==>
                var start := StartOf(mode, c).value;
                && fresh(asset) && asset.mode == mode && Opened(asset.Value(), start.seed)
                && asset.precondition == start.precondition
                && asset.directory.value !in old(disk.directories)
                && disk.directories == old(disk.directories) + {asset.directory.value}
      ensures !c.staging || !c.seeded || !c.opens ==> asset == null
      ensures c.staging && c.seeded && c.opens && mode == Replace ==>
                asset != null && asset.data == [] && asset.precondition == Overwrite
      ensures c.staging && c.seeded && c.opens && mode == Update && c.materialized.Found? && !c.ifMatch ==>
                asset != null && asset.data == c.materialized.bytes && asset.precondition == Overwrite
      ensures c.staging && c.seeded && c.opens && mode == Update && c.materialized.Found? && c.ifMatch ==>
                match c.materialized.etag
                case None => asset == null
                case Some(tag) => asset != null && asset.data == c.materialized.bytes && asset.precondition == MatchEtag(tag)
      ensures c.staging && c.seeded && c.opens && mode == Update && c.materialized == Missing ==>
                asset != null && asset.data == [] && asset.precondition == FailIfPresent
      ensures mode == Update && c.materialized == Unavailable ==> asset == null
    {
      asset := null;
      if !c.staging {
        return;
      }
      var staging := disk.MakeDirectory();
      var precondition := Overwrite;
      var seed: seq<Byte> := [];
      if mode == Update {
        match c.materialized
        case Found(bytes, etag) =>
          if c.ifMatch {
            if etag == None {
              disk.Remove(staging);
              return;
            }
            precondition := MatchEtag(etag.value);
          }
          if !c.seeded {
            disk.Remove(staging);
            return;
          }
          seed := bytes;
        case Missing =>
          if !c.seeded {
            disk.Remove(staging);
            return;
          }
          precondition := FailIfPresent;
        case Unavailable =>
          disk.Remove(staging);
          return;
      } else {
        if !c.seeded {
          disk.Remove(staging);
          return;
        }
      }
      if !c.opens {
        disk.Remove(staging);
        return;
      }
      asset := new Asset(mode, seed, precondition, staging);
    }

    method Write(patch: Patch, outcome: Outcome) returns (count: nat)
      requires outcome.Wrote? ==> outcome.count <= |patch.data|
      modifies this`writeFailed, this`data
      ensures (Value(), count) == AfterWrite(old(Value()), patch, outcome)
      ensures count == if old(open) && outcome.Wrote? then outcome.count else 0
      ensures writeFailed <==> old(writeFailed) || !old(open) || outcome.Failed? || outcome.count < |patch.data|
    {
      if !open {
        writeFailed := true;
        return 0;
      }
      match outcome
      case Failed(left) =>
        data := left;
        writeFailed := true;
        return 0;
      case Wrote(written) =>
        data := Overlay(data, Patch(patch.offset, patch.data[..written]));
        if written < |patch.data| {
          writeFailed := true;
        }
        return written;
    }

    /** Answers whether the PUT was made and went well. */
    method Close(disk: Disk, bridge: Bridge, clean: bool, readBack: bool, accepted: bool) returns (ok: bool)
      requires disk.Valid()
      modifies this, disk`directories, bridge
      ensures disk.Valid() && directory == (if old(closed) then old(directory) else None)
      ensures Value() == AfterClose(old(Value()), clean, readBack).0
      ensures var put := AfterClose(old(Value()), clean, readBack).1;
              && bridge.puts == (if put.Some? then old(bridge.puts) + [put.value] else old(bridge.puts))
              && ok == (put.Some? && accepted)
      ensures bridge.puts != old(bridge.puts) <==> !old(closed) && !old(writeFailed) && clean && readBack
      ensures bridge.puts != old(bridge.puts) ==> bridge.puts == old(bridge.puts) + [Request(old(data), old(precondition))]
      ensures open <==> old(open) && (old(closed) || (old(writeFailed) && mode == Update))
      ensures disk.directories == if old(closed) || old(directory) == None then old(disk.directories) else old(disk.directories) - {old(directory).value}
    {
      if closed {
        return false;
      }
      closed := true;
      if writeFailed {
        AbandonSafeFile();
        CleanupTemp(disk);
        return false;
      }
      open := false;
      if !clean {
        CleanupTemp(disk);
        return false;
      }
      if !readBack {
        CleanupTemp(disk);
        return false;
      }
      bridge.Put(Request(data, precondition));
      CleanupTemp(disk);
      return accepted;
    }

    method CleanupTemp(disk: Disk)
      requires disk.Valid()
      modifies this`directory, disk`directories
      ensures disk.Valid() && directory == None
      ensures disk.directories == if old(directory) == None then old(disk.directories) else old(disk.directories) - {old(directory).value}
    {
      if directory != None {
        disk.Remove(directory.value);
        directory := None;
      }
    }

    method AbandonSafeFile()
      modifies this`open
      ensures Value() == Abandoned(old(Value()))
    {
      if mode != Update {
        open := false;
      }
    }

    /** The destructor. */
    method Destroy(disk: Disk)
      requires disk.Valid()
      modifies this`open, this`directory, disk`directories
      ensures disk.Valid() && Value() == AfterDestroy(old(Value()))
      ensures open <==> old(open) && (old(closed) || mode == Update)
      ensures disk.directories == if old(closed) || old(directory) == None then old(disk.directories) else old(disk.directories) - {old(directory).value}
    {
      if !closed {
        AbandonSafeFile();
        CleanupTemp(disk);
      }
    }
  }
}
