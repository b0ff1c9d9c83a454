/** KLEE's address spaces: maps from memory objects to shared object states, with copy on write by epoch. */
module AddressSpaces {
  import opened Memory

  class AddressSpace {
    /** The epoch; an object state is owned if its owner is exactly this. */
    var cowKey: nat
    var objects: map<MemoryObject, ObjectState>

    constructor ()
      ensures cowKey == 1 && objects == map[]
    {
      cowKey, objects := 1, map[];
    }

    /** The copy constructor: both spaces enter a new epoch, so neither owns anything any more. */
    constructor Fork(b: AddressSpace)
      modifies b`cowKey
      ensures b.cowKey == old(b.cowKey) + 1 && cowKey == b.cowKey && objects == b.objects
    {
      cowKey, objects := b.cowKey + 1, b.objects;
      new;
      b.cowKey := b.cowKey + 1;
    }

    method BindObject(mo: MemoryObject, os: ObjectState)
      requires os.copyOnWriteOwner == 0
      modifies this`objects, os`copyOnWriteOwner
      ensures os.copyOnWriteOwner == cowKey && objects == old(objects)[mo := os]
    {
      os.copyOnWriteOwner := cowKey;
      objects := objects[mo := os];
    }

    method UnbindObject(mo: MemoryObject)
      modifies this`objects
      ensures objects == old(objects) - {mo}
    {
      objects := objects - {mo};
    }

    /** The binding itself if this space owns it, else a copy that is bound in its place. */
    method GetWriteable(mo: MemoryObject, os: ObjectState) returns (wos: ObjectState)
      requires mo in objects && objects[mo] == os && os.Valid() && !os.readOnly
      modifies this`objects
      ensures wos.Valid() && wos.mo == os.mo && !wos.readOnly && wos.copyOnWriteOwner == cowKey && wos.cache == os.cache
      ensures objects == old(objects)[mo := wos]
      ensures if cowKey == os.copyOnWriteOwner then wos == os else fresh(wos.Repr)
    {
      if cowKey == os.copyOnWriteOwner {
        wos := os;
      } else {
        wos := new ObjectState.Copy(os);
        wos.copyOnWriteOwner := cowKey;
        objects := objects[mo := wos];
      }
    }
  }
}
