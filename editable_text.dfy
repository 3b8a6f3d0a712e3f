/**
 * The inline text editor of a task row: a display that switches to an input
 * on click, saves the trimmed text on Enter, Tab, blur or a click outside,
 * and reverts on Escape or when the text is left blank.
 *
 * Timers are handles: `timers` holds the callbacks still scheduled with their
 * delays (each runs `handleSave` when `Fire` is called for it) and `blurTimeout` is
 * `blurTimeoutRef.current`, which may name a callback already cleared.
 */
module EditableText {
  import opened Wrappers
  import opened Text
  import opened Keyboard

  /** `value || ""` */
  function OrEmpty(value: Option<string>): string {
    if value.Some? then value.value else ""
  }

  /** What `handleSave` passes to `onSave`: nothing for a blank edit or an
      edit equal to `value` (compared before trimming), the trimmed edit
      otherwise. */
  function SaveOf(editValue: string, value: Option<string>): (r: Option<string>)
    ensures r.Some? <==> !IsBlank(editValue) && Some(editValue) != value
    ensures r.Some? ==> r.value == Trim(editValue) && r.value != []
                        && !IsSpace(r.value[0]) && !IsSpace(r.value[|r.value| - 1])
  {
    BlankIffTrimEmpty(editValue);
    TrimHasNoPadding(editValue);
    if IsBlank(editValue) || Some(editValue) == value then None else Some(Trim(editValue))
  }

  /** A saved text is already trimmed: saving it again from an untouched
      editor sends nothing more. */
  lemma SavedTextIsStable(editValue: string, value: Option<string>)
    requires SaveOf(editValue, value).Some?
    ensures Trim(SaveOf(editValue, value).value) == SaveOf(editValue, value).value
    ensures SaveOf(SaveOf(editValue, value).value, SaveOf(editValue, value)).None?
  {
    TrimIdempotent(editValue);
  }

  /** Padding alone is not a change of content, but it is still sent: the
      comparison with `value` happens before trimming. */
  lemma PaddingIsSaved(value: string)
    requires !IsBlank(value) && TrimStart(value) == value
    ensures SaveOf(" " + value, Some(value)) == Some(Trim(value))
  {
    assert (" " + value)[1..] == value;
  }

  class Editor {
    /** The props. */
    var value: Option<string>
    var disabled: bool
    /** The state and the ref. */
    var isEditing: bool
    var editValue: string
    var blurTimeout: Option<nat>
    /** Scheduled callbacks: handle to delay in milliseconds. */
    var timers: map<nat, nat>
    var nextTimer: nat

    ghost predicate Valid()
      reads this
    {
      forall h :: h in timers ==> h < nextTimer
    }

    constructor (value: Option<string>, disabled: bool)
      ensures Valid()
      ensures this.value == value && this.disabled == disabled
      ensures !isEditing && editValue == OrEmpty(value) && blurTimeout.None? && timers == map[]
    {
      this.value, this.disabled := value, disabled;
      isEditing, editValue, blurTimeout := false, OrEmpty(value), None;
      timers, nextTimer := map[], 0;
    }

    /** Whether the input (rather than the display) is rendered. */
    predicate ShowsInput()
      reads this
    {
      isEditing && !disabled
    }

    /** `handleSave`: clears the pending blur callback, then reverts a blank
        edit, or ends editing and reports a changed edit through `onSave`. */
    method HandleSave() returns (saved: Option<string>)
      requires Valid()
      modifies this
      ensures Valid()
      ensures saved == SaveOf(old(editValue), value)
      ensures !isEditing && blurTimeout.None?
      ensures timers == old(if blurTimeout.Some? then timers - {blurTimeout.value} else timers)
      ensures editValue == if IsBlank(old(editValue)) then OrEmpty(value) else old(editValue)
      ensures value == old(value) && disabled == old(disabled) && nextTimer == old(nextTimer)
    {
      if blurTimeout.Some? {
        timers := timers - {blurTimeout.value};
        blurTimeout := None;
      }
      if IsBlank(editValue) {
        editValue := OrEmpty(value);
        isEditing := false;
        return None;
      }
      saved := None;
      if Some(editValue) != value {
        saved := Some(Trim(editValue));
      }
      isEditing := false;
    }

    /** Keys in the input: Enter saves, Escape reverts and ends editing, Tab
        without Shift saves (and focus moves on). */
    method HandleKeyDown(key: Key, shiftKey: bool) returns (saved: Option<string>)
      requires Valid()
      modifies this
      ensures Valid()
      ensures (key == Enter || (key == Tab && !shiftKey)) ==>
                saved == SaveOf(old(editValue), value) && !isEditing && blurTimeout.None?
                && editValue == (if IsBlank(old(editValue)) then OrEmpty(value) else old(editValue))
                && timers == old(if blurTimeout.Some? then timers - {blurTimeout.value} else timers)
      ensures key == Escape ==>
                saved.None? && !isEditing && editValue == OrEmpty(value)
                && blurTimeout == old(blurTimeout) && timers == old(timers)
      ensures key != Enter && key != Escape && !(key == Tab && !shiftKey) ==>
                saved.None? && isEditing == old(isEditing) && editValue == old(editValue)
                && blurTimeout == old(blurTimeout) && timers == old(timers)
      ensures value == old(value) && disabled == old(disabled) && nextTimer == old(nextTimer)
    {
      saved := None;
      if key == Enter {
        saved := HandleSave();
      }
      if key == Escape {
        editValue := OrEmpty(value);
        isEditing := false;
      }
      if key == Tab && !shiftKey {
        saved := HandleSave();
      }
    }

    /** Typing in the input. */
    method Change(s: string)
      modifies this
      ensures editValue == s
      ensures value == old(value) && disabled == old(disabled) && isEditing == old(isEditing)
      ensures blurTimeout == old(blurTimeout) && timers == old(timers) && nextTimer == old(nextTimer)
    {
      editValue := s;
    }

    /** The parent re-renders with new props. */
    method SetProps(newValue: Option<string>, newDisabled: bool)
      modifies this
      ensures value == newValue && disabled == newDisabled
      ensures isEditing == old(isEditing) && editValue == old(editValue)
      ensures blurTimeout == old(blurTimeout) && timers == old(timers) && nextTimer == old(nextTimer)
    {
      value, disabled := newValue, newDisabled;
    }

    /** The effect that follows `value` while not editing. */
    method Resync()
      modifies this
      ensures !old(isEditing) && Some(old(editValue)) != value ==> editValue == OrEmpty(value)
      ensures old(isEditing) || Some(old(editValue)) == value ==> editValue == old(editValue)
      ensures value == old(value) && disabled == old(disabled) && isEditing == old(isEditing)
      ensures blurTimeout == old(blurTimeout) && timers == old(timers) && nextTimer == old(nextTimer)
    {
      if !isEditing && Some(editValue) != value {
        editValue := OrEmpty(value);
      }
    }

    /** A click or double click on the display starts editing unless disabled. */
    method HandleStartEditing()
      modifies this
      ensures isEditing == (old(isEditing) || !disabled)
      ensures value == old(value) && disabled == old(disabled) && editValue == old(editValue)
      ensures blurTimeout == old(blurTimeout) && timers == old(timers) && nextTimer == old(nextTimer)
    {
      if !disabled {
        isEditing := true;
      }
    }

    /** Enter or Space on the focused display starts editing unless disabled. */
    method HandleDisplayKeyDown(key: Key)
      modifies this
      ensures isEditing == (old(isEditing) || (!disabled && (key == Enter || key == Space)))
      ensures value == old(value) && disabled == old(disabled) && editValue == old(editValue)
      ensures blurTimeout == old(blurTimeout) && timers == old(timers) && nextTimer == old(nextTimer)
    {
      if !disabled && (key == Enter || key == Space) {
        isEditing := true;
      }
    }

    /** `setTimeout(handleSave, delayMs)` with its handle kept in the ref: 150 ms
        on leaving the input (`handleBlur`), so that a click elsewhere is
        processed first, and 100 ms after a click on a button or link. A
        callback the ref named before stays scheduled. */
    method ScheduleSave(delayMs: nat) returns (h: nat)
      requires Valid()
      modifies this
      ensures Valid()
      ensures h == old(nextTimer) && h !in old(timers)
      ensures timers == old(timers)[h := delayMs] && blurTimeout == Some(h) && nextTimer == h + 1
      ensures value == old(value) && disabled == old(disabled)
      ensures isEditing == old(isEditing) && editValue == old(editValue)
    {
      h := nextTimer;
      nextTimer := nextTimer + 1;
      timers := timers[h := delayMs];
      blurTimeout := Some(h);
    }

    /** Focusing the input again cancels the callback the ref names. */
    method HandleFocus()
      modifies this
      ensures blurTimeout.None?
      ensures timers == old(if blurTimeout.Some? then timers - {blurTimeout.value} else timers)
      ensures value == old(value) && disabled == old(disabled) && nextTimer == old(nextTimer)
      ensures isEditing == old(isEditing) && editValue == old(editValue)
    {
      if blurTimeout.Some? {
        timers := timers - {blurTimeout.value};
        blurTimeout := None;
      }
    }

    /** A scheduled callback runs `handleSave`. */
    method Fire(h: nat) returns (saved: Option<string>)
      requires Valid() && h in timers
      modifies this
      ensures Valid()
      ensures saved == SaveOf(old(editValue), value) && !isEditing && blurTimeout.None?
      ensures timers == old(timers) - {h} - (if old(blurTimeout).Some? then {old(blurTimeout).value} else {})
      ensures editValue == if IsBlank(old(editValue)) then OrEmpty(value) else old(editValue)
      ensures value == old(value) && disabled == old(disabled) && nextTimer == old(nextTimer)
    {
      timers := timers - {h};
      saved := HandleSave();
    }

    /** A mousedown while editing (the listener exists only then): outside
        the editor, a click on a button or link saves 100 ms later, any other
        click saves at once. */
    method HandleClickOutside(outside: bool, interactive: bool) returns (saved: Option<string>)
      requires Valid() && isEditing
      modifies this
      ensures Valid()
      ensures !outside ==> saved.None? && unchanged(this)
      ensures outside && interactive ==>
                saved.None? && blurTimeout == Some(old(nextTimer)) && timers == old(timers)[old(nextTimer) := 100]
                && nextTimer == old(nextTimer) + 1 && isEditing && editValue == old(editValue)
      ensures outside && !interactive ==>
                saved == SaveOf(old(editValue), value) && !isEditing && blurTimeout.None?
                && timers == old(if blurTimeout.Some? then timers - {blurTimeout.value} else timers)
                && editValue == (if IsBlank(old(editValue)) then OrEmpty(value) else old(editValue))
                && nextTimer == old(nextTimer)
      ensures value == old(value) && disabled == old(disabled)
    {
      saved := None;
      if !outside {
        return;
      }
      if interactive {
        var _ := ScheduleSave(100);
      } else {
        saved := HandleSave();
      }
    }

    /** The cleanup of the click-outside effect (when editing starts or ends,
        when `handleSave` changes, and on unmount): clears the callback the
        ref names, without emptying the ref. */
    method Cleanup()
      modifies this
      ensures timers == old(if blurTimeout.Some? then timers - {blurTimeout.value} else timers)
      ensures blurTimeout == old(blurTimeout) && nextTimer == old(nextTimer)
      ensures value == old(value) && disabled == old(disabled)
      ensures isEditing == old(isEditing) && editValue == old(editValue)
    {
      if blurTimeout.Some? {
        timers := timers - {blurTimeout.value};
      }
    }
  }
}
