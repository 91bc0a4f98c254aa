/** The MQTT topic strings the handlers subscribe to and publish on. */
module Topics {
  const RegisterUser := "dentistimo/register/user"
  const RegisterDentist := "dentistimo/register/dentist"
  const RegisterError := "dentistimo/register/error"
  const AddDentist := "dentistimo/add-dentist"

  const LoginUser := "dentistimo/login/user"
  const LoginDentist := "dentistimo/login/dentist"
  const LoginError := "dentistimo/login/error"

  const ModifyUser := "dentistimo/modify-user"
  const ModifyUserError := "dentistimo/modify-user/error"

  const ResetPasswordUser := "dentistimo/reset-password/user"
  const ResetPasswordDentist := "dentistimo/reset-password/dentist"
  const ResetPasswordError := "dentistimo/reset-password/error"

  /** The send-code topic the service subscribes to carries no account kind. */
  const SendEmailCode := "dentistimo/send-email-code"
  const SendEmailCodeUser := "dentistimo/send-email-code/user"
  const SendEmailCodeDentist := "dentistimo/send-email-code/dentist"

  const Authentication := "dentistimo/authentication"
  const AuthenticationResponse := "dentistimo/authentication/response"
}
