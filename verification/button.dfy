/** A pressable "button": in a terminal interface a button is a key mapping
    that emits an event when its key is pressed. The event type is a
    parameter `E`, owned by the game state and opaque here. */
module Buttons {
  import opened Keys

  datatype Option<T> = None | Some(value: T)

  /** A button: its label text, the one key that triggers it, and the producer
      that builds the event it emits. */
  datatype Button<E> = Button(text: string, trigger: KeyCode, output: () -> E)

  /** Builds a button whose event is computed by `output` each time it fires.
      The label text is kept as given and the trigger is not checked. */
  function NewThen<E>(text: string, trigger: KeyCode, output: () -> E): (b: Button<E>)
    ensures b.text == text && b.trigger == trigger
    ensures b.output() == output()
  {
    Button(text, trigger, output)
  }

  /** Builds a button that emits the constant event `output`. */
  function New<E>(text: string, trigger: KeyCode, output: E): (b: Button<E>)
    ensures b.text == text && b.trigger == trigger
    ensures b.output() == output
  {
    NewThen(text, trigger, () => output)
  }

  /** The event a key press produces on this button, if any. */
  function HandleTrigger<E>(b: Button<E>, code: KeyCode): (r: Option<E>)
    ensures r.Some? <==> code == b.trigger
    ensures r.Some? ==> r.value == b.output()
  {
    if code == b.trigger then Some(b.output()) else None
  }

  /** A constant button behaves, on every key, like the general constructor
      given a producer that always returns that event. */
  lemma NewIsNewThenConstant<E>(text: string, trigger: KeyCode, e: E, code: KeyCode)
    ensures HandleTrigger(New(text, trigger, e), code) == HandleTrigger(NewThen(text, trigger, () => e), code)
    ensures code == trigger <==> HandleTrigger(New(text, trigger, e), code) == Some(e)
  {
  }

  /** A constant button emits the same event on every matching key press. */
  lemma NewAlwaysSameEvent<E>(text: string, trigger: KeyCode, e: E, presses: seq<KeyCode>)
    ensures forall i :: 0 <= i < |presses| && presses[i] == trigger ==>
      HandleTrigger(New(text, trigger, e), presses[i]) == Some(e)
    ensures forall i :: 0 <= i < |presses| && presses[i] != trigger ==>
      HandleTrigger(New(text, trigger, e), presses[i]) == None
  {
  }

  /** On a key that does not match, the answer does not depend on the
      producer: two buttons with the same trigger agree, whatever they emit. */
  lemma NonMatchIgnoresProducer<E>(b1: Button<E>, b2: Button<E>, code: KeyCode)
    requires b1.trigger == b2.trigger && code != b1.trigger
    ensures HandleTrigger(b1, code) == HandleTrigger(b2, code) == None
  {
  }
}
