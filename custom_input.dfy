/**
 * The password-visibility state of components/ui/CustomInput.tsx: one boolean `isVisible`,
 * initialised from the `secureTextEntry` prop and flipped by the eye icon, which is rendered only
 * for inputs with `isPassword`.
 */
module CustomInput {
  import opened Wrappers

  class TextField {
    /** The props, after their defaults `secureTextEntry = false` and `isPassword = false`. */
    const secureTextEntry: bool
    const isPassword: bool
    /** `const [isVisible, setIsVisible] = useState(!secureTextEntry)` */
    var isVisible: bool

    constructor (secureTextEntry: Option<bool>, isPassword: Option<bool>)
      ensures this.secureTextEntry == secureTextEntry.GetOr(false)
      ensures this.isPassword == isPassword.GetOr(false)
      ensures isVisible == !this.secureTextEntry
      ensures secureTextEntry.None? ==> isVisible
    {
      this.secureTextEntry := secureTextEntry.GetOr(false);
      this.isPassword := isPassword.GetOr(false);
      isVisible := !secureTextEntry.GetOr(false);
    }

    /** `secureTextEntry={isPassword && !isVisible}` on the inner TextInput. */
    function Masked(): (masked: bool)
      reads this
      ensures !isPassword ==> !masked
      ensures isVisible ==> !masked
      ensures isPassword && !isVisible ==> masked
    {
      isPassword && !isVisible
    }

    /** The eye icon: present only for password inputs, named after the current visibility. */
    function ToggleIcon(): (icon: Option<string>)
      reads this
      ensures icon.Some? <==> isPassword
      ensures icon.Some? ==> icon.value == (if isVisible then "visibility" else "visibility-off")
      ensures icon.Some? ==> (icon.value == "visibility-off" <==> Masked())
    {
      if isPassword then Some(if isVisible then "visibility" else "visibility-off") else None
    }

    /** `onPress={() => setIsVisible(!isVisible)}` on the icon, which exists only when `isPassword`. */
    method Toggle()
      requires isPassword
      modifies this
      ensures isVisible == !old(isVisible)
      ensures Masked() == !old(Masked())
    {
      isVisible := !isVisible;
    }
  }

  /** Two presses of the icon restore the original visibility and masking. */
  method ToggleTwice(field: TextField)
    requires field.isPassword
    modifies field
    ensures field.isVisible == old(field.isVisible)
    ensures field.Masked() == old(field.Masked())
  {
    field.Toggle();
    field.Toggle();
  }
}
