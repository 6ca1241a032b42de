/** The keyboard driver in the form of kernel/src/keyboard.c. What the two ports read comes
    in as arguments. */
module Keyboard {
  import opened Bytes
  import opened KeyboardQueue

  class Keyboard {
    const layout: Layout
    const keyBuffer: array<Byte>
    var bufferHead: nat
    var bufferTail: nat
    var shiftPressed: bool
    var capsLock: bool
    var ctrlPressed: bool
    var altPressed: bool

    constructor ()
      ensures Valid() && View() == Start() && layout == UsLayout() && fresh(keyBuffer)
    {
      layout := UsLayout();
      keyBuffer := new Byte[BUFFER_SIZE](_ => 0);
      bufferHead, bufferTail := 0, 0;
      shiftPressed, capsLock, ctrlPressed, altPressed := false, false, false, false;
      new;
      assert keyBuffer[..] == Zeros(BUFFER_SIZE);
    }

    ghost predicate Valid()
      reads this
    {
      keyBuffer.Length == BUFFER_SIZE && bufferHead < BUFFER_SIZE && bufferTail < BUFFER_SIZE
    }

    ghost function View(): (s: State)
      requires Valid()
      reads this, keyBuffer
      ensures RingOk(s.ring)
    {
      State(Mods(shiftPressed, capsLock, ctrlPressed, altPressed), Ring(keyBuffer[..], bufferHead, bufferTail))
    }

    method SetModifiers(scancode: Byte)
      requires Valid()
      modifies this`shiftPressed, this`capsLock, this`ctrlPressed, this`altPressed
      ensures View() == old(View()).(mods := Modify(old(View()).mods, scancode))
    {
      var released := scancode >= 128;
      var code := scancode % 128;
      if code == KEY_LSHIFT || code == KEY_RSHIFT {
        shiftPressed := !released;
      } else if code == KEY_CAPSLOCK {
        if !released {
          capsLock := !capsLock;
        }
      } else if code == KEY_LCTRL {
        ctrlPressed := !released;
      } else if code == KEY_LALT {
        altPressed := !released;
      }
    }

    method Enqueue(c: Byte)
      requires Valid()
      modifies this`bufferTail, keyBuffer
      ensures Valid() && View() == old(View()).(ring := Put(old(View()).ring, c))
    {
      var next := (bufferTail + 1) % BUFFER_SIZE;
      if next != bufferHead {
        keyBuffer[bufferTail] := c;
        bufferTail := next;
      }
    }

    method KeyboardHandler(status: Byte, scancode: Byte)
      requires Valid()
      modifies this, keyBuffer
      ensures Valid() && View() == Step(layout, old(View()), Interrupt(status, scancode))
    {
      if status % 2 != 1 {
        return;
      }
      SetModifiers(scancode);
      if scancode < 128 {
        var c := if shiftPressed != capsLock then layout.shifted[scancode] else layout.plain[scancode];
        if c != 0 {
          Enqueue(c);
        }
      }
    }

    method KeyboardHasKey() returns (has: bool)
      requires Valid()
      ensures has <==> Pending(View().ring) != []
    {
      has := bufferHead != bufferTail;
    }

    /** With KEY_NONE for an empty buffer. */
    method KeyboardGetKey() returns (key: Byte)
      requires Valid()
      modifies this`bufferHead
      ensures Valid() && View() == Step(layout, old(View()), Read) && key == Get(old(View()).ring).0
      ensures Taken(old(View()), Read) == if key != KEY_NONE then [key] else []
    {
      if bufferHead == bufferTail {
        return KEY_NONE;
      }
      key := keyBuffer[bufferHead];
      bufferHead := (bufferHead + 1) % BUFFER_SIZE;
    }
  }
}
