/**
 * The cookie session value both controllers read: `session[:word_display_settings]`,
 * a hash from setting name to on/off once the settings form has been saved.
 */
module SessionStore {

  type DisplaySettings = map<string, bool>

  /** What the session holds under the key: nothing yet, a hash, or some other value. */
  datatype Stored = Unset | HashValue(h: DisplaySettings) | OtherValue
}
