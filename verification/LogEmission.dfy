/** Emitting into the active log when any call may fail, and giving up on a log that is not safe. */
module LogEmission {
  import opened FaultyDirectory
  import opened LogRotation
  import ActiveLog

  function SizeOf(data: Content): nat {
    if data.Plain? then |data.text| else 0
  }

  class Handler {
    const dir: Directory
    const stem: string
    const path: Name
    const alarms: nat -> bool     // whether a failing look is a denied one, or one at something that is no log
    var disabled: bool

    constructor (dir: Directory, stem: string, alarms: nat -> bool)
      requires dir.Valid()
      ensures Valid() && this.dir == dir && this.stem == stem && this.alarms == alarms && !disabled
    {
      this.dir, this.stem, this.path, this.alarms := dir, stem, File(ActiveLog.ActiveName(stem)), alarms;
      disabled := false;
    }

    ghost predicate Valid()
      reads dir`fs, dir`history
    {
      dir.Valid() && path == File(ActiveLog.ActiveName(stem))
    }

    /** The log has a link count other than one. */
    ghost predicate Shared(fs: FS) {
      path in fs.names && fs.names[path] in fs.inodes && fs.inodes[fs.names[path]].nlink != 1
    }

    ghost predicate Holds(fs: FS, text: string) {
      path in fs.names && fs.names[path] in fs.inodes && fs.inodes[fs.names[path]].data == Plain(text)
    }

    /** The size check before the log is current: rotates when the line would not fit. */
    method MakeRoom(line: string) returns (r: Result<()>)
      requires Valid()
      modifies dir
      ensures dir.Valid()
      ensures Shared(old(dir.fs)) ==> dir.fs == old(dir.fs)
      ensures path in dir.fs.names && r.Ok? ==> dir.fs == old(dir.fs)
    {
      var stat := dir.Lstat(path);
      if stat.Err? || SizeOf(dir.fs.inodes[stat.value.ino].data) + |line| <= ActiveLog.MAX_DAILY_LOG_BYTES {
        return Ok(());
      }
      var rotation := new Rotation(dir, stem, SizeOf);
      r := rotation.RotateActiveIfNeeded(true);
    }

    /** `_open`: creates a missing log, and refuses one that has another name. */
    method Open() returns (r: Result<Ino>)
      requires Valid()
      modifies dir
      ensures dir.Valid() && (path in old(dir.fs).names ==> dir.fs == old(dir.fs))
      ensures Shared(old(dir.fs)) ==> r.Err?
      ensures r.Ok? ==> Bound(dir.fs, path, r.value) && dir.fs.inodes[r.value].nlink == 1
      ensures r.Ok? && path !in old(dir.fs).names ==> Holds(dir.fs, "")
    {
      var expected := dir.Lstat(path);
      if expected.Err? && expected.error != Missing {
        return Err(expected.error);
      }
      if expected.Err? {
        var created := CreateLog();
        if created.Err? {
          return Err(created.error);
        }
      } else if expected.value.nlink != 1 {
        return Err(CheckFailed);
      }
      var current := dir.Lstat(path);
      if current.Err? {
        return Err(current.error);
      }
      r := if current.value.nlink == 1 then Ok(current.value.ino) else Err(CheckFailed);
    }

    method CreateLog() returns (r: Result<()>)
      requires Valid() && path !in dir.fs.names
      modifies dir
      ensures dir.Valid() && (r.Ok? ==> Holds(dir.fs, "") && dir.fs.inodes[dir.fs.names[path]].nlink == 1)
    {
      FreshInoExists(dir.fs.inodes.Keys);
      var unused: Ino :| unused !in dir.fs.inodes;
      r := dir.Create(path, unused, Plain(""));
    }

    /** Rotates a log that turned out too long once it was open, and opens a new one. */
    method Reopen() returns (r: Result<Ino>)
      requires Valid()
      modifies dir
      ensures dir.Valid()
      ensures r.Ok? ==> Bound(dir.fs, path, r.value) && (dir.fs == old(dir.fs) || Holds(dir.fs, ""))
    {
      var rotation := new Rotation(dir, stem, SizeOf);
      var rotated := rotation.RotateActiveIfNeeded(true);
      if rotated.Err? {
        return Err(rotated.error);
      }
      r := Open();
    }

    /** `_emit_locked` without its maintenance. */
    method EmitLocked(line: string) returns (r: Result<()>)
      requires Valid()
      modifies dir
      ensures dir.Valid()
      ensures Shared(old(dir.fs)) ==> r.Err? && dir.fs == old(dir.fs)
      ensures r.Ok? ==> exists text: string :: Holds(dir.fs, text + line) && (text == "" || Holds(old(dir.fs), text))
    {
      var room := MakeRoom(line);
      if room.Err? {
        return Err(room.error);
      }
      var current := Open();
      if current.Err? {
        return Err(current.error);
      }
      if SizeOf(dir.fs.inodes[current.value].data) > 0 && SizeOf(dir.fs.inodes[current.value].data) + |line| > ActiveLog.MAX_DAILY_LOG_BYTES {
        current := Reopen();
        if current.Err? {
          return Err(current.error);
        }
      }
      var data := dir.fs.inodes[current.value].data;
      if !data.Plain? {
        return Err(CheckFailed);
      }
      assert Holds(dir.fs, data.text) && (data.text == "" || Holds(old(dir.fs), data.text));
      r := dir.Write(current.value, Plain(data.text + line));
    }

    /** Two looks, at the log and at its directory, find a log with other links or none, or one of
        them fails in a way that counts as insecure. */
    ghost predicate LooksInsecure(call: nat, fs: FS) {
      if !dir.Works(call, fs) then alarms(call)
      else Shared(fs) || (!dir.Works(call + 1, fs) && alarms(call + 1))
    }

    /** `_is_log_path_insecure`: a missing log is not insecure, and neither is one that an ordinary
        failure keeps from being looked at. */
    method IsLogPathInsecure() returns (insecure: bool)
      requires Valid()
      modifies dir`calls
      ensures insecure == LooksInsecure(old(dir.calls), dir.fs) && old(dir.calls) < dir.calls <= old(dir.calls) + 2
    {
      var stat := dir.Lstat(path);
      if stat.Err? && stat.error != Missing {
        return alarms(dir.calls - 1);
      }
      if stat.Ok? && stat.value.nlink != 1 {
        return true;
      }
      var parent := dir.Draw();
      insecure := parent != NoFault && alarms(dir.calls - 1);
    }

    /** `emit`: after a failure the last two calls are the looks, and they decide whether the handler
        gives up for good. */
    method Emit(line: string) returns (written: bool)
      requires Valid()
      modifies dir, this`disabled
      ensures dir.Valid() && (old(disabled) ==> disabled && !written)
      ensures !old(disabled) && written ==> !disabled
      ensures !old(disabled) && !written ==> exists call: nat | call < dir.calls <= call + 2 :: disabled == LooksInsecure(call, dir.fs)
      ensures old(disabled) || Shared(old(dir.fs)) ==> !written && dir.fs == old(dir.fs)
      ensures Shared(old(dir.fs)) && dir.CalmAt(old(dir.fs)) ==> disabled
      ensures written ==> exists text: string :: Holds(dir.fs, text + line) && (text == "" || Holds(old(dir.fs), text))
    {
      if disabled {
        return false;
      }
      var emitted := EmitLocked(line);
      if emitted.Ok? {
        return true;
      }
      ghost var looks := dir.calls;
      disabled := IsLogPathInsecure();
      assert looks < dir.calls <= looks + 2 && disabled == LooksInsecure(looks, dir.fs);
      written := false;
    }

    /** Once the log has two links, no later line is written and nothing changes, whatever works or
        fails; and the first emit that can look at it disables the handler. */
    method EmitAll(lines: seq<string>) returns (written: nat)
      requires Valid()
      modifies dir, this`disabled
      ensures dir.Valid() && written <= |lines|
      ensures old(disabled) || Shared(old(dir.fs)) ==> written == 0 && dir.fs == old(dir.fs)
      ensures Shared(old(dir.fs)) && dir.CalmAt(old(dir.fs)) && lines != [] ==> disabled
    {
      written := 0;
      for i := 0 to |lines|
        invariant dir.Valid() && written <= i && (old(disabled) ==> disabled)
        invariant old(disabled) || Shared(old(dir.fs)) ==> written == 0 && dir.fs == old(dir.fs)
        invariant Shared(old(dir.fs)) && dir.CalmAt(old(dir.fs)) && i > 0 ==> disabled
      {
        var done := Emit(lines[i]);
        if done {
          written := written + 1;
        }
      }
    }
  }
}
