/**
 * The structure engine (PyMOL's `cmd`) as the pipeline uses it: a workspace of
 * named objects, each a sequence of states, and a file store from path to the
 * states saved there. File formats, atoms and the alignment algorithm are not
 * modelled: a state is an opaque conformation and alignment is a function the
 * caller supplies.
 */
module Engine {

  /** One state of an object: its atom coordinates, opaque to the pipeline. */
  datatype Conformation = Conformation(coordinates: seq<real>)

  /** An object or a structure file: its states, state 1 first. */
  type Structure = seq<Conformation>

  /** `align(mobile, target)`: the RMSD `cmd.align(mobile, target, cycles=0, transform=0)[0]` reports. */
  type Aligner = (Structure, Structure) -> real

  /**
   * A snapshot of the engine: the workspace, the files on disk, and the paths
   * written by `cmd.save`, in the order they were written.
   */
  datatype Session = Session(objects: map<string, Structure>, disk: map<string, Structure>, saved: seq<string>)

  /** `cmd.load(path, name)` of an existing file: the object `name` now holds the file's states. */
  function Loaded(s: Session, path: string, name: string): Session
    requires path in s.disk
  {
    s.(objects := s.objects[name := s.disk[path]])
  }

  /** `cmd.create(name, source, state, 1)`: a one-state object copied from state `state` of `source`. */
  function Created(s: Session, name: string, source: string, state: nat): Session
    requires source in s.objects && 1 <= state <= |s.objects[source]|
  {
    s.(objects := s.objects[name := [s.objects[source][state - 1]]])
  }

  /** `cmd.save(path, name)`: the file at `path` now holds the object, and the write is recorded. */
  function Saved(s: Session, path: string, name: string): Session
    requires name in s.objects
  {
    s.(disk := s.disk[path := s.objects[name]], saved := s.saved + [path])
  }

  /** `cmd.delete(name)`: the object is gone; deleting a missing name does nothing. */
  function Deleted(s: Session, name: string): Session
  {
    s.(objects := s.objects - {name})
  }

  /** The engine's state, updated in place by each command. */
  class Pymol {
    var objects: map<string, Structure>
    var disk: map<string, Structure>
    var saved: seq<string>

    /** A fresh engine with an empty workspace over the given files. */
    constructor (files: map<string, Structure>)
      ensures Snapshot() == Session(map[], files, [])
    {
      objects := map[];
      disk := files;
      saved := [];
    }

    function Snapshot(): Session
      reads this
    {
      Session(objects, disk, saved)
    }

    /** `cmd.load(path, name)`; `ok` is false where PyMOL raises because the file does not exist. */
    method Load(path: string, name: string) returns (ok: bool)
      modifies this
      ensures ok == (path in old(disk))
      ensures Snapshot() == if ok then Loaded(old(Snapshot()), path, name) else old(Snapshot())
    {
      ok := path in disk;
      if ok {
        objects := objects[name := disk[path]];
      }
    }

    /** `cmd.count_states(name)`: how many states the object holds; `Create` copies states 1..n. */
    function CountStates(name: string): (n: nat)
      reads this
      requires name in objects
      ensures n == |objects[name]|
      ensures n == 0 <==> objects[name] == []
    {
      |objects[name]|
    }

    method Create(name: string, source: string, state: nat)
      requires source in objects && 1 <= state <= |objects[source]|
      modifies this
      ensures Snapshot() == Created(old(Snapshot()), name, source, state)
    {
      objects := objects[name := [objects[source][state - 1]]];
    }

    method Save(path: string, name: string)
      requires name in objects
      modifies this
      ensures Snapshot() == Saved(old(Snapshot()), path, name)
    {
      disk := disk[path := objects[name]];
      saved := saved + [path];
    }

    /**
     * `cmd.align(mobile, target, cycles=0, transform=0)[0]`: with no refinement
     * cycles and no transform nothing moves, so the engine is left as it was
     * (the method modifies nothing) and only the RMSD of the two objects is returned.
     */
    method Align(mobile: string, target: string, align: Aligner) returns (rmsd: real)
      requires mobile in objects && target in objects
      ensures rmsd == align(objects[mobile], objects[target])
    {
      rmsd := align(objects[mobile], objects[target]);
    }

    method Delete(name: string)
      modifies this
      ensures Snapshot() == Deleted(old(Snapshot()), name)
    {
      objects := objects - {name};
    }
  }
}
